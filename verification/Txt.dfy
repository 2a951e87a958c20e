// The TXT rule format: internal/rules/rules.go, ParseTXT, the TXT branch of ParseBytes, txtLine and MarshalTXT.
module Txt {
  import opened Options
  import opened Slices
  import opened Text
  import opened Sorting
  import opened Rules
  import opened Versions

  // ---- Words and lines ----

  predicate NoSpace(s: string) {
    forall i :: 0 <= i < |s| ==> !IsSpace(s[i])
  }

  predicate Word(s: string) {
    s != "" && NoSpace(s)
  }

  function WordLength(s: string): (n: nat)
    ensures n <= |s|
    ensures NoSpace(s[..n])
    ensures n < |s| ==> IsSpace(s[n])
  {
    if s == "" || IsSpace(s[0]) then 0
    else
      var n := 1 + WordLength(s[1..]);
      assert forall i :: 1 <= i < n ==> s[i] == s[1..][..n - 1][i - 1];
      n
  }

  /** strings.Fields: the words between runs of white space. */
  function Fields(s: string): (words: seq<string>)
    ensures forall i :: 0 <= i < |words| ==> Word(words[i])
    decreases |s|
  {
    if s == "" then []
    else if IsSpace(s[0]) then Fields(s[1..])
    else [s[..WordLength(s)]] + Fields(s[WordLength(s)..])
  }

  /** strings.Join with single blanks. */
  function Join(words: seq<string>): string {
    if words == [] then ""
    else if |words| == 1 then words[0]
    else words[0] + " " + Join(words[1..])
  }

  /** strings.Split at line feeds. */
  function Lines(s: string): (lines: seq<string>)
    ensures lines != []
  {
    if s == "" then [""]
    else
      var rest := Lines(s[1..]);
      if s[0] == '\n' then [""] + rest else [[s[0]] + rest[0]] + rest[1..]
  }

  predicate OccursAt(s: string, i: int, w: string) {
    0 <= i <= |s| - |w| && s[i..i + |w|] == w
  }

  predicate Contains(s: string, w: string) {
    exists i :: 0 <= i <= |s| && OccursAt(s, i, w)
  }

  // ---- Parsing ----

  datatype Line = Skip | Unknown(token: string) | Parsed(rule: Content)

  function TxtRule(id: string, kind: Kind, category: string, src: string, field: Field, value: string): Content {
    Content(id, "", kind, true, category, src, "", [Matcher(field, value)])
  }

  /** categoryRule. */
  function CategoryRule(kind: Kind, cat: string, src: string, id: string): Content {
    TxtRule(id, kind, ToLower(TrimSpace(cat)), src, Category, ToLower(TrimSpace(cat)))
  }

  function PlainRule(kind: Kind, field: Field, words: seq<string>, src: string, id: string): Content {
    var val := TrimSpace(Join(words));
    TxtRule(id, kind, "", src, if field == Domain && HasPrefix(val, "*.") then DomainSuffix else field, val)
  }

  /** The switch over the first word, in upper case. */
  function ParseWords(token: string, words: seq<string>, src: string, txtID: string, catID: string): Line
    requires words != []
  {
    if token == "ALLOW" then Parsed(PlainRule(Allow, Domain, words, src, txtID))
    else if token == "BLOCK" then Parsed(PlainRule(Block, Domain, words, src, txtID))
    else if token == "OBSERVE" then Parsed(PlainRule(Observe, Domain, words, src, txtID))
    else if token == "RATELIMIT" || token == "RATE_LIMIT" then Parsed(PlainRule(RateLimit, Domain, words, src, txtID))
    else if token == "BLOCK_CATEGORY" then Parsed(CategoryRule(Block, words[0], src, catID))
    else if token == "ALLOW_CATEGORY" then Parsed(PlainRule(Allow, Category, words, src, txtID))
    else Unknown(token)
  }

  /** ParseTXT: `txtID` and `catID` are what NewID would return for this line. */
  function ParseTxt(text: string, src: string, txtID: string, catID: string): Line {
    var line := TrimSpace(text);
    if line == "" || HasPrefix(line, "#") || HasPrefix(line, ";") then Skip
    else
      var fields := Fields(line);
      if |fields| < 2 then Skip else ParseWords(ToUpper(fields[0]), fields[1..], src, txtID, catID)
  }

  /** What ParseBytes does with a text: leave it to the YAML and JSON readers, fail on a line, fail the validation, or
      return rules. */
  datatype Outcome = Structured | Failed(token: string) | Invalid | Rules(rules: seq<Content>)

  /** The identifiers NewID allocates: one per prefix and line. */
  type Ids = (string, nat) -> string

  function ParseLine(line: string, src: string, ids: Ids, n: nat): Line {
    ParseTxt(line, src, ids("txt", n), ids("cat", n))
  }

  /** The rules of the first `n` lines, or the first line that fails. */
  function ParseLines(lines: seq<string>, src: string, ids: Ids): Outcome {
    if lines == [] then Rules([])
    else
      var n := |lines| - 1;
      var before := ParseLines(lines[..n], src, ids);
      if !before.Rules? then before
      else
        match ParseLine(lines[n], src, ids, n)
        case Skip => before
        case Unknown(token) => Failed(token)
        case Parsed(rule) => Rules(before.rules + [rule])
  }

  predicate LooksStructured(trimmed: string) {
    || HasPrefix(trimmed, "[") || HasPrefix(trimmed, "{") || HasPrefix(trimmed, "-")
    || Contains(trimmed, "rules:")
  }

  predicate ValidContents(cs: seq<Content>) {
    forall i :: 0 <= i < |cs| ==> ValidRule(cs[i].kind, cs[i].matchers)
  }

  function ParseFn(data: string, src: string, ids: Ids): Outcome {
    var trimmed := TrimSpace(data);
    if trimmed == "" then Rules([])
    else if LooksStructured(trimmed) then Structured
    else
      var outcome := ParseLines(Lines(trimmed), src, ids);
      if outcome.Rules? && !ValidContents(outcome.rules) then Invalid else outcome
  }

  // ---- Printing ----

  function KindToken(k: Kind): string {
    match k
    case Allow => "ALLOW"
    case Block => "BLOCK"
    case Observe => "OBSERVE"
    case RateLimit => "RATELIMIT"
    case OtherKind(_) => ""
  }

  /** Fields whose values are printed without their name. */
  predicate PrintedBare(f: Field) {
    f == Domain || f == DomainSuffix || f == Wildcard || f == IP || f == CIDR || f == ASN || f == DNS || f == SNI
  }

  function PrintedValues(ms: seq<Matcher>): seq<string> {
    if ms == [] then []
    else
      var n := |ms| - 1;
      PrintedValues(ms[..n])
      + [if PrintedBare(ms[n].field) then ms[n].value else FieldName(ms[n].field) + ":" + ms[n].value]
  }

  /** txtLine. */
  function TxtLine(c: Content): string {
    if |c.matchers| == 1 && c.matchers[0].field == Category then
      KindToken(c.kind) + "_CATEGORY " + ToUpper(c.matchers[0].value)
    else KindToken(c.kind) + " " + Join(PrintedValues(c.matchers))
  }

  function Printed(cs: seq<Content>): string {
    if cs == [] then "" else TxtLine(cs[0]) + "\n" + Printed(cs[1..])
  }

  function ById(c: Content): string {
    c.id
  }

  /** MarshalTXT. */
  function MarshalFn(cs: seq<Content>): string {
    Printed(SortBy(cs, ById))
  }

  // ---- Parser and printer as the loops of the source ----

  function RuleId(r: Rule): string {
    r.id
  }

  method NewRule(c: Content) returns (r: Rule)
    ensures fresh(r) && ContentOf(r) == c && r.hits == 0
  {
    r := new Rule(c.id, c.name, c.kind, c.enabled, c.category, c.matchers, c.source, c.comment, 0, 0);
  }

  /** ParseBytes; a structured text is left to the readers that are not part of this model. */
  method ParseBytes(data: string, source: string, ids: Ids) returns (outcome: Outcome, rules: seq<Rule>)
    ensures outcome == ParseFn(data, source, ids)
    ensures outcome.Rules? ==> Contents(rules) == outcome.rules && forall i :: 0 <= i < |rules| ==> fresh(rules[i])
    ensures !outcome.Rules? ==> rules == []
  {
    hide ParseLine, LooksStructured, Lines, ValidRule;
    var trimmed := TrimSpace(data);
    rules := [];
    if trimmed == "" {
      return Rules([]), [];
    }
    if LooksStructured(trimmed) {
      return Structured, [];
    }
    var lines := Lines(trimmed);
    for i := 0 to |lines|
      invariant ParseLines(lines[..i], source, ids) == Rules(Contents(rules))
      invariant forall k :: 0 <= k < |rules| ==> fresh(rules[k])
    {
      assert lines[..i + 1][..i] == lines[..i];
      var parsed := ParseLine(lines[i], source, ids, i);
      if parsed.Unknown? {
        LaterLinesFail(lines, i + 1, source, ids);
        return Failed(parsed.token), [];
      }
      if parsed.Parsed? {
        var r := NewRule(parsed.rule);
        assert Contents(rules + [r]) == Contents(rules) + [parsed.rule];
        rules := rules + [r];
      }
    }
    assert lines[..|lines|] == lines;
    if exists i :: 0 <= i < |rules| && !ValidRule(rules[i].kind, rules[i].matchers) {
      return Invalid, [];
    }
    outcome := Rules(Contents(rules));
  }

  /** The first line that fails decides. */
  lemma {:induction false} LaterLinesFail(lines: seq<string>, n: nat, src: string, ids: Ids)
    requires n <= |lines| && !ParseLines(lines[..n], src, ids).Rules?
    ensures ParseLines(lines, src, ids) == ParseLines(lines[..n], src, ids)
    decreases |lines|
  {
    if n == |lines| {
      assert lines[..n] == lines;
    } else {
      assert lines[..|lines| - 1][..n] == lines[..n];
      LaterLinesFail(lines[..|lines| - 1], n, src, ids);
    }
  }

  method MarshalTxt(rs: seq<Rule>) returns (text: string)
    ensures text == MarshalFn(Contents(rs))
  {
    hide TxtLine;
    var sorted := SortBy(rs, RuleId);
    SortContents(rs);
    text := "";
    ghost var cs := Contents(sorted);
    for i := 0 to |sorted|
      invariant text + Printed(cs[i..]) == Printed(cs)
    {
      assert cs[i..][0] == ContentOf(sorted[i]) && cs[i..][1..] == cs[i + 1..];
      text := text + (TxtLine(ContentOf(sorted[i])) + "\n");
    }
    assert text + "" == text;
  }

  /** Sorting rules sorts their contents. */
  lemma {:induction false} SortContents(rs: seq<Rule>)
    ensures Contents(SortBy(rs, RuleId)) == SortBy(Contents(rs), ById)
  {
    if rs != [] {
      var n := |rs| - 1;
      SortContents(rs[..n]);
      assert Contents(rs)[..n] == Contents(rs[..n]);
      InsertContents(SortBy(rs[..n], RuleId), rs[n]);
    }
  }

  lemma {:induction false} InsertContents(rs: seq<Rule>, r: Rule)
    ensures Contents(Insert(rs, r, RuleId)) == Insert(Contents(rs), ContentOf(r), ById)
  {
    hide Less;
    if rs != [] {
      var n := |rs| - 1;
      InsertContents(rs[..n], r);
      assert Contents(rs)[..n] == Contents(rs[..n]);
    }
  }

  // ---- Words ----

  lemma {:induction false} FieldsOfWord(t: string, rest: string)
    requires Word(t) && (rest == "" || IsSpace(rest[0]))
    ensures Fields(t + rest) == [t] + Fields(rest)
  {
    WordLengthOf(t, rest);
    var s := t + rest;
    assert !IsSpace(s[0]);
    assert s[..|t|] == t && s[|t|..] == rest;
  }

  lemma {:induction false} WordLengthOf(t: string, rest: string)
    requires NoSpace(t) && (rest == "" || IsSpace(rest[0]))
    ensures WordLength(t + rest) == |t|
  {
    if t == "" {
      assert t + rest == rest;
    } else {
      WordLengthOf(t[1..], rest);
      assert (t + rest)[1..] == t[1..] + rest;
    }
  }

  /** Splitting undoes joining. */
  lemma {:induction false} FieldsJoin(words: seq<string>)
    requires forall i :: 0 <= i < |words| ==> Word(words[i])
    ensures Fields(Join(words)) == words
  {
    hide Fields;
    FieldsOfBlank();
    if |words| == 1 {
      FieldsOfWord(words[0], "");
      assert words[0] + "" == words[0];
    } else if |words| > 1 {
      FieldsJoin(words[1..]);
      var rest := " " + Join(words[1..]);
      assert Join(words) == words[0] + rest;
      FieldsOfWord(words[0], rest);
      SkipBlank(rest);
      assert rest[1..] == Join(words[1..]);
    }
  }

  lemma FieldsOfBlank()
    ensures Fields("") == []
  {
  }

  lemma SkipBlank(s: string)
    requires s != "" && IsSpace(s[0])
    ensures Fields(s) == Fields(s[1..])
  {
  }

  /** One or more words with single blanks between them. */
  predicate Plain(s: string) {
    && s != "" && !IsSpace(s[0]) && !IsSpace(s[|s| - 1])
    && forall i :: 0 <= i < |s| && IsSpace(s[i]) ==> s[i] == ' ' && i + 1 < |s| && !IsSpace(s[i + 1])
  }

  lemma {:induction false} JoinPlain(words: seq<string>)
    requires words != [] && forall i :: 0 <= i < |words| ==> Word(words[i])
    ensures Plain(Join(words))
  {
    if |words| > 1 {
      JoinPlain(words[1..]);
      var first, rest := words[0], Join(words[1..]);
      var s := Join(words);
      assert s == first + " " + rest;
      forall i | 0 <= i < |s| && IsSpace(s[i])
        ensures s[i] == ' ' && i + 1 < |s| && !IsSpace(s[i + 1])
      {
        if i > |first| {
          assert s[i] == rest[i - |first| - 1];
          assert i + 1 < |s| ==> s[i + 1] == rest[i - |first|];
        } else {
          assert i == |first|;
          assert s[i + 1] == rest[0];
        }
      }
      assert s[|s| - 1] == rest[|rest| - 1];
    }
  }

  /** Joining undoes splitting a plain text. */
  lemma {:induction false} PlainJoin(s: string)
    requires Plain(s)
    ensures Fields(s) != [] && Join(Fields(s)) == s
    decreases |s|
  {
    hide Fields, Join;
    var n := WordLength(s);
    var t, rest := s[..n], s[n..];
    assert s == t + rest;
    assert n < |s| ==> IsSpace(s[n]);
    if n == |s| {
      assert rest == "";
      FieldsOfWord(t, rest);
      FieldsOfBlank();
      JoinOne(t);
      assert [t] + [] == [t];
    } else {
      var more := s[n + 1..];
      PlainRest(s, n);
      FieldsOfWord(t, rest);
      SkipBlank(rest);
      assert rest[1..] == more;
      PlainJoin(more);
      JoinMore(t, Fields(more));
    }
  }

  /** What follows the first word and its blank is plain too. */
  lemma PlainRest(s: string, n: nat)
    requires Plain(s) && n < |s| && IsSpace(s[n])
    ensures Plain(s[n + 1..]) && s == s[..n] + " " + s[n + 1..]
    ensures IsSpace(s[n..][0])
  {
    var more := s[n + 1..];
    assert more[0] == s[n + 1] && more[|more| - 1] == s[|s| - 1];
    forall i | 0 <= i < |more| && IsSpace(more[i])
      ensures more[i] == ' ' && i + 1 < |more| && !IsSpace(more[i + 1])
    {
      assert s[n + 1 + i] == more[i];
    }
  }

  lemma JoinOne(t: string)
    ensures Join([t]) == t
  {
  }

  lemma JoinMore(t: string, words: seq<string>)
    requires words != []
    ensures Join([t] + words) == t + " " + Join(words)
  {
    assert ([t] + words)[1..] == words;
  }

  lemma TrimPlain(s: string)
    requires s != "" && !IsSpace(s[0]) && !IsSpace(s[|s| - 1])
    ensures TrimSpace(s) == s
  {
  }

  lemma PlainUpper(s: string)
    requires Plain(s)
    ensures Plain(ToUpper(s))
  {
    forall c
      ensures IsSpace(UpperChar(c)) <==> IsSpace(c)
      ensures IsSpace(c) ==> UpperChar(c) == c
    {
    }
  }

  // ---- Occurrences of a word ----

  lemma ContainsPart(s: string, i: nat, j: nat, w: string)
    requires i <= j <= |s| && Contains(s[i..j], w)
    ensures Contains(s, w)
  {
    var k :| 0 <= k <= |s[i..j]| && OccursAt(s[i..j], k, w);
    SliceOfSlice(s, i, j, k, k + |w|);
    assert OccursAt(s, i + k, w);
  }

  lemma NoSpaceWithin(s: string, k: nat, w: string)
    requires OccursAt(s, k, w) && NoSpace(w)
    ensures forall p :: k <= p < k + |w| ==> !IsSpace(s[p])
  {
    forall p | k <= p < k + |w|
      ensures !IsSpace(s[p])
    {
      assert w[p - k] == s[p];
    }
  }

  /** An occurrence of a word does not reach across white space. */
  lemma ContainsSplit(a: string, c: char, b: string, w: string)
    requires Word(w) && IsSpace(c) && Contains(a + [c] + b, w)
    ensures Contains(a, w) || Contains(b, w)
  {
    var s := a + [c] + b;
    var k :| 0 <= k <= |s| && OccursAt(s, k, w);
    NoSpaceWithin(s, k, w);
    assert s[|a|] == c;
    if k + |w| <= |a| {
      assert a[k..k + |w|] == s[k..k + |w|];
      assert OccursAt(a, k, w);
    } else {
      var j := k - |a| - 1;
      assert b[j..j + |w|] == s[k..k + |w|];
      assert OccursAt(b, j, w);
    }
  }

  lemma {:induction false} JoinContains(words: seq<string>, w: string)
    requires Word(w) && forall i :: 0 <= i < |words| ==> !Contains(words[i], w)
    ensures !Contains(Join(words), w)
  {
    if words == [] {
      NotInEmpty(w);
    } else if |words| > 1 {
      JoinContains(words[1..], w);
      if Contains(Join(words), w) {
        assert Join(words) == words[0] + [' '] + Join(words[1..]);
        ContainsSplit(words[0], ' ', Join(words[1..]), w);
      }
    }
  }

  lemma NotInEmpty(w: string)
    requires w != ""
    ensures !Contains("", w)
  {
  }

  lemma {:induction false} FieldsContains(s: string, w: string)
    requires !Contains(s, w)
    ensures forall i :: 0 <= i < |Fields(s)| ==> !Contains(Fields(s)[i], w)
    decreases |s|
  {
    if s != "" {
      var n := if IsSpace(s[0]) then 1 else WordLength(s);
      assert s[n..] == s[n..|s|] && s[..n] == s[0..n];
      if Contains(s[n..], w) {
        ContainsPart(s, n, |s|, w);
      }
      if Contains(s[..n], w) {
        ContainsPart(s, 0, n, w);
      }
      FieldsContains(s[n..], w);
    }
  }

  /** Where a line lies in its text. */
  lemma {:induction false} LineIn(s: string, k: nat) returns (i: nat, j: nat)
    requires k < |Lines(s)|
    ensures i <= j <= |s| && Lines(s)[k] == s[i..j] && (k == 0 ==> i == 0)
    decreases |s|
  {
    if s == "" {
      i, j := 0, 0;
    } else {
      var rest := Lines(s[1..]);
      if s[0] == '\n' {
        if k == 0 {
          i, j := 0, 0;
        } else {
          i, j := LineIn(s[1..], k - 1);
          assert s[1..][i..j] == s[i + 1..j + 1];
          i, j := i + 1, j + 1;
        }
      } else {
        i, j := LineIn(s[1..], k);
        assert s[1..][i..j] == s[i + 1..j + 1];
        i, j := if k == 0 then 0 else i + 1, j + 1;
        assert k == 0 ==> s[0..j] == [s[0]] + s[1..j];
      }
    }
  }

  lemma LinesContains(s: string, w: string)
    requires !Contains(s, w)
    ensures forall k :: 0 <= k < |Lines(s)| ==> !Contains(Lines(s)[k], w)
  {
    forall k | 0 <= k < |Lines(s)|
      ensures !Contains(Lines(s)[k], w)
    {
      var i, j := LineIn(s, k);
      if Contains(s[i..j], w) {
        ContainsPart(s, i, j, w);
      }
    }
  }

  lemma {:induction false} TrimLeftIn(s: string) returns (i: nat)
    ensures i <= |s| && TrimLeft(s) == s[i..]
  {
    i := 0;
    if s != "" && IsSpace(s[0]) {
      var j := TrimLeftIn(s[1..]);
      i := j + 1;
    }
  }

  lemma {:induction false} TrimRightIn(s: string) returns (j: nat)
    ensures j <= |s| && TrimRight(s) == s[..j]
  {
    j := |s|;
    if s != "" && IsSpace(s[|s| - 1]) {
      j := TrimRightIn(s[..|s| - 1]);
    }
  }

  lemma TrimContains(s: string, w: string)
    requires !Contains(s, w)
    ensures !Contains(TrimSpace(s), w)
  {
    var i := TrimLeftIn(s);
    var j := TrimRightIn(TrimLeft(s));
    assert TrimSpace(s) == s[i..i + j];
    if Contains(s[i..i + j], w) {
      ContainsPart(s, i, i + j, w);
    }
  }

  // ---- The rules the TXT format yields ----

  const MARK := "rules:"

  /** A rule as a TXT line makes it: one matcher on a domain, a suffix or a category, its value plain text. */
  ghost predicate Shaped(c: Content) {
    && c.name == "" && c.comment == "" && c.enabled && !c.kind.OtherKind?
    && |c.matchers| == 1
    && var m := c.matchers[0];
       && Plain(m.value)
       && match m.field
          case Domain => c.category == "" && !HasPrefix(m.value, "*.") && !Contains(m.value, MARK)
          case DomainSuffix => c.category == "" && HasPrefix(m.value, "*.") && !Contains(m.value, MARK)
          case Category =>
            || (c.kind == Block && NoSpace(m.value) && ToLower(m.value) == m.value && c.category == m.value)
            || (c.kind == Allow && c.category == "")
          case _ => false
  }

  lemma LowerWord(t: string)
    requires Word(t)
    ensures TrimSpace(t) == t && Plain(t)
    ensures Word(ToLower(t)) && Plain(ToLower(t)) && ToLower(ToLower(t)) == ToLower(t)
  {
    TrimPlain(t);
    forall c
      ensures IsSpace(LowerChar(c)) <==> IsSpace(c)
      ensures LowerChar(LowerChar(c)) == LowerChar(c)
    {
    }
    var u := ToLower(t);
    assert forall i :: 0 <= i < |u| ==> u[i] == LowerChar(t[i]);
  }

  lemma PlainRuleShaped(kind: Kind, field: Field, words: seq<string>, src: string, id: string)
    requires words != [] && forall i :: 0 <= i < |words| ==> Word(words[i]) && !Contains(words[i], MARK)
    requires !kind.OtherKind? && (field == Domain || (field == Category && kind == Allow))
    ensures Shaped(PlainRule(kind, field, words, src, id))
  {
    hide Contains, Plain;
    JoinPlain(words);
    PlainEnds(Join(words));
    TrimPlain(Join(words));
    JoinContains(words, MARK);
  }

  lemma PlainEnds(s: string)
    requires Plain(s)
    ensures s != "" && !IsSpace(s[0]) && !IsSpace(s[|s| - 1])
  {
  }

  lemma LineShaped(text: string, src: string, t: string, k: string)
    requires !Contains(text, MARK) && ParseTxt(text, src, t, k).Parsed?
    ensures Shaped(ParseTxt(text, src, t, k).rule)
  {
    hide Contains, Fields, ToUpper, TrimSpace, PlainRule, Shaped;
    TrimContains(text, MARK);
    var fields := Fields(TrimSpace(text));
    FieldsContains(TrimSpace(text), MARK);
    var token := ToUpper(fields[0]);
    if token == "BLOCK_CATEGORY" {
      CategoryShaped(fields[1], src, k);
    } else {
      var kind := if token == "ALLOW" || token == "ALLOW_CATEGORY" then Allow
                  else if token == "BLOCK" then Block
                  else if token == "OBSERVE" then Observe
                  else RateLimit;
      PlainRuleShaped(kind, if token == "ALLOW_CATEGORY" then Category else Domain, fields[1..], src, t);
    }
  }

  lemma CategoryShaped(word: string, src: string, id: string)
    requires Word(word)
    ensures Shaped(CategoryRule(Block, word, src, id))
  {
    hide TrimSpace, ToLower, Plain;
    LowerWord(word);
  }

  ghost predicate AllShaped(cs: seq<Content>) {
    forall i :: 0 <= i < |cs| ==> Shaped(cs[i])
  }

  lemma {:induction false} LinesShaped(lines: seq<string>, src: string, ids: Ids)
    requires forall k :: 0 <= k < |lines| ==> !Contains(lines[k], MARK)
    requires ParseLines(lines, src, ids).Rules?
    ensures AllShaped(ParseLines(lines, src, ids).rules)
  {
    hide Contains, ParseTxt, Shaped;
    if lines != [] {
      var n := |lines| - 1;
      LinesShaped(lines[..n], src, ids);
      if ParseLine(lines[n], src, ids, n).Parsed? {
        LineShaped(lines[n], src, ids("txt", n), ids("cat", n));
      }
    }
  }

  /** Every rule set read from TXT has the shape. */
  lemma ParsedShaped(data: string, src: string, ids: Ids)
    requires ParseFn(data, src, ids).Rules?
    ensures AllShaped(ParseFn(data, src, ids).rules)
  {
    hide Contains, Lines, ParseLines, Shaped, TrimSpace, ValidContents;
    var trimmed := TrimSpace(data);
    if trimmed != "" {
      LinesContains(trimmed, MARK);
      LinesShaped(Lines(trimmed), src, ids);
    }
  }

  /** Validation never rejects what a TXT text yields. */
  lemma TxtNeverInvalid(data: string, src: string, ids: Ids)
    ensures ParseFn(data, src, ids) != Invalid
  {
    hide Contains, Lines, ParseLines, Shaped, TrimSpace, ValidContents;
    var trimmed := TrimSpace(data);
    NeitherWay(Lines(trimmed), src, ids);
    if trimmed != "" && !LooksStructured(trimmed) && ParseLines(Lines(trimmed), src, ids).Rules? {
      LinesContains(trimmed, MARK);
      LinesShaped(Lines(trimmed), src, ids);
      ShapedValid(ParseLines(Lines(trimmed), src, ids).rules);
    }
  }

  lemma {:induction false} NeitherWay(lines: seq<string>, src: string, ids: Ids)
    ensures ParseLines(lines, src, ids).Rules? || ParseLines(lines, src, ids).Failed?
  {
    hide ParseLine;
    if lines != [] {
      NeitherWay(lines[..|lines| - 1], src, ids);
    }
  }

  lemma ShapedValid(cs: seq<Content>)
    requires AllShaped(cs)
    ensures ValidContents(cs)
  {
    forall i | 0 <= i < |cs|
      ensures ValidRule(cs[i].kind, cs[i].matchers)
    {
      assert Shaped(cs[i]);
      TrimPlain(cs[i].matchers[0].value);
    }
  }

  // ---- Printing and reading back ----

  /** What a printed rule is read back as: the values of ALLOW_CATEGORY rules in upper case, all others unchanged. */
  function Reprinted(c: Content, src: string, txtID: string, catID: string): Content
    requires |c.matchers| == 1
  {
    var m := c.matchers[0];
    if m.field != Category then TxtRule(txtID, c.kind, "", src, m.field, m.value)
    else if c.kind == Block then TxtRule(catID, c.kind, m.value, src, Category, m.value)
    else TxtRule(txtID, c.kind, "", src, Category, ToUpper(m.value))
  }

  /** Kind, field and value survive, the value up to letter case. */
  lemma ReprintedSame(c: Content, src: string, txtID: string, catID: string)
    requires Shaped(c)
    ensures var d := Reprinted(c, src, txtID, catID);
            && Shaped(d) && d.kind == c.kind && |d.matchers| == 1
            && d.matchers[0].field == c.matchers[0].field
            && EqualFold(d.matchers[0].value, c.matchers[0].value)
            && (c.matchers[0].field != Category ==> d.matchers == c.matchers)
  {
    hide Contains, Plain;
    var v := c.matchers[0].value;
    PlainUpper(v);
    LowerOfUpper(v);
  }

  lemma LowerOfUpper(v: string)
    ensures ToLower(ToUpper(v)) == ToLower(v)
  {
    forall c
      ensures LowerChar(UpperChar(c)) == LowerChar(c)
    {
    }
  }

  function Head(c: Content): string
    requires |c.matchers| == 1
  {
    KindToken(c.kind) + if c.matchers[0].field == Category then "_CATEGORY" else ""
  }

  function Tail(c: Content): string
    requires |c.matchers| == 1
  {
    if c.matchers[0].field == Category then ToUpper(c.matchers[0].value) else c.matchers[0].value
  }

  lemma LineParts(c: Content)
    requires Shaped(c)
    ensures TxtLine(c) == Head(c) + " " + Tail(c)
    ensures Plain(Tail(c)) && !Contains(Tail(c), MARK)
  {
    hide Contains, Plain;
    var ms := c.matchers;
    assert ms[..0] == [];
    assert PrintedBare(ms[0].field) ==> PrintedValues(ms) == [ms[0].value];
    PlainUpper(ms[0].value);
    UpperUnmarked(ms[0].value);
  }

  lemma UpperUnmarked(s: string)
    ensures !Contains(ToUpper(s), MARK)
  {
    NoMark(ToUpper(s));
  }

  lemma NoMark(s: string)
    requires forall i :: 0 <= i < |s| ==> s[i] != 'r'
    ensures !Contains(s, MARK)
  {
    forall k | 0 <= k <= |s|
      ensures !OccursAt(s, k, MARK)
    {
      assert k + |MARK| <= |s| ==> s[k..k + |MARK|][0] == s[k];
    }
  }

  /** The first word of a printed line. */
  lemma HeadWord(c: Content)
    requires Shaped(c)
    ensures Word(Head(c)) && ToUpper(Head(c)) == Head(c) && Head(c)[0] in ['A', 'B', 'O', 'R']
    ensures !Contains(Head(c), MARK)
  {
    hide Contains, Plain;
    var h := Head(c);
    assert forall i :: 0 <= i < |h| ==> 'A' <= h[i] <= 'Z' || h[i] == '_';
    assert ToUpper(h) == h;
    NoMark(h);
  }

  lemma LineWords(h: string, v: string)
    requires Word(h) && Plain(v)
    ensures Fields(h + " " + v) == [h] + Fields(v) && Fields(v) != [] && Join(Fields(v)) == v
    ensures TrimSpace(h + " " + v) == h + " " + v
    ensures TrimSpace(v) == v
  {
    hide Fields, TrimSpace, Join;
    PlainEnds(v);
    FieldsOfWord(h, " " + v);
    assert h + (" " + v) == h + " " + v;
    SkipBlank(" " + v);
    assert (" " + v)[1..] == v;
    PlainJoin(v);
    TrimPlain(v);
    TrimPlain(h + " " + v);
  }

  lemma WordFields(v: string)
    requires Word(v)
    ensures Fields(v) == [v] && TrimSpace(v) == v
  {
    FieldsOfWord(v, "");
    FieldsOfBlank();
    assert v + "" == v;
    TrimPlain(v);
  }

  /** A printed rule parses back. */
  lemma LineReads(c: Content, src: string, txtID: string, catID: string)
    requires Shaped(c)
    ensures ParseTxt(TxtLine(c), src, txtID, catID) == Parsed(Reprinted(c, src, txtID, catID))
  {
    hide Contains, Plain, Fields, TrimSpace, Join, ToUpper, ToLower, TxtLine, PrintedValues, Head, Tail;
    var h, v := Head(c), Tail(c);
    LineParts(c);
    HeadWord(c);
    LineWords(h, v);
    var line := h + " " + v;
    assert line[0] == h[0];
    NotAComment(line);
    assert Fields(line)[1..] == Fields(v);
    if c.matchers[0].field == Category {
      CategoryReads(c, src, txtID, catID);
    } else {
      HeadOfPlain(c);
    }
  }

  lemma NotAComment(line: string)
    requires line != "" && line[0] in ['A', 'B', 'O', 'R']
    ensures !HasPrefix(line, "#") && !HasPrefix(line, ";")
    ensures !HasPrefix(line, "[") && !HasPrefix(line, "{") && !HasPrefix(line, "-")
  {
  }

  lemma HeadOfPlain(c: Content)
    requires Shaped(c) && c.matchers[0].field != Category
    ensures Head(c) == KindToken(c.kind) && Tail(c) == c.matchers[0].value
    ensures Reprinted(c, "", "", "").matchers == c.matchers
  {
    hide Contains, Plain;
    assert Head(c) == KindToken(c.kind) + "";
  }

  lemma CategoryReads(c: Content, src: string, txtID: string, catID: string)
    requires Shaped(c) && c.matchers[0].field == Category
    ensures c.kind == Block ==> Head(c) == "BLOCK_CATEGORY" && Fields(Tail(c)) == [Tail(c)] && TrimSpace(Tail(c)) == Tail(c)
    ensures c.kind == Block ==> ToLower(Tail(c)) == c.matchers[0].value
    ensures c.kind != Block ==> Head(c) == "ALLOW_CATEGORY" && Tail(c) == ToUpper(c.matchers[0].value)
  {
    hide Contains, Fields, TrimSpace;
    var v := c.matchers[0].value;
    LowerOfUpper(v);
    if c.kind == Block {
      forall i | 0 <= i < |v|
        ensures !IsSpace(ToUpper(v)[i])
      {
        assert !IsSpace(v[i]);
      }
      WordFields(ToUpper(v));
    }
  }

  /** Lines with line feeds between them. */
  function JoinLines(lines: seq<string>): string {
    if lines == [] then ""
    else if |lines| == 1 then lines[0]
    else lines[0] + "\n" + JoinLines(lines[1..])
  }

  /** A printed line: a word, a blank, plain text. */
  ghost predicate Printable(line: string) {
    line != "" && line[0] in ['A', 'B', 'O', 'R'] && !IsSpace(line[|line| - 1]) && '\n' !in line && !Contains(line, MARK)
  }

  lemma LinePrintable(c: Content)
    requires Shaped(c)
    ensures Printable(TxtLine(c))
  {
    hide Contains, TxtLine, Head, Tail;
    LineParts(c);
    HeadWord(c);
    var h, v := Head(c), Tail(c);
    var line := h + " " + v;
    assert line == h + [' '] + v;
    if Contains(line, MARK) {
      ContainsSplit(h, ' ', v, MARK);
    }
    forall i | 0 <= i < |line|
      ensures line[i] != '\n'
    {
      assert i > |h| ==> line[i] == v[i - |h| - 1];
    }
    assert line[|line| - 1] == v[|v| - 1];
  }

  function LinesOf(cs: seq<Content>): (lines: seq<string>)
    ensures |lines| == |cs|
    ensures forall i :: 0 <= i < |cs| ==> lines[i] == TxtLine(cs[i])
  {
    if cs == [] then [] else [TxtLine(cs[0])] + LinesOf(cs[1..])
  }

  lemma {:induction false} PrintedLines(cs: seq<Content>)
    requires cs != []
    ensures Printed(cs) == JoinLines(LinesOf(cs)) + "\n"
  {
    hide TxtLine;
    if |cs| == 1 {
      assert cs[1..] == [];
    } else {
      PrintedLines(cs[1..]);
      assert LinesOf(cs)[1..] == LinesOf(cs[1..]);
    }
  }

  lemma LinesOfOne(l: string)
    requires '\n' !in l
    ensures Lines(l) == [l]
  {
    if l != "" {
      LinesOfOne(l[1..]);
      assert l == [l[0]] + l[1..];
    }
  }

  lemma {:induction false} LinesOfMore(l: string, rest: string)
    requires '\n' !in l
    ensures Lines(l + "\n" + rest) == [l] + Lines(rest)
  {
    var s := l + "\n" + rest;
    if l == "" {
      assert s[1..] == rest;
    } else {
      LinesOfMore(l[1..], rest);
      assert s[1..] == l[1..] + "\n" + rest;
      assert l == [l[0]] + l[1..];
    }
  }

  /** Splitting a printed text gives its lines back; it is not taken for a structured one. */
  lemma {:induction false} LinesBack(lines: seq<string>)
    requires lines != [] && forall i :: 0 <= i < |lines| ==> Printable(lines[i])
    ensures Lines(JoinLines(lines)) == lines
    ensures var s := JoinLines(lines); s != "" && s[0] in ['A', 'B', 'O', 'R'] && !IsSpace(s[|s| - 1]) && !Contains(s, MARK)
  {
    hide Contains, Lines;
    if |lines| == 1 {
      LinesOfOne(lines[0]);
    } else {
      var rest := JoinLines(lines[1..]);
      LinesBack(lines[1..]);
      LinesOfMore(lines[0], rest);
      assert JoinLines(lines) == lines[0] + ['\n'] + rest;
      if Contains(JoinLines(lines), MARK) {
        ContainsSplit(lines[0], '\n', rest, MARK);
      }
      assert lines == [lines[0]] + lines[1..];
    }
  }

  function ReprintedAll(cs: seq<Content>, src: string, ids: Ids): (out: seq<Content>)
    requires forall i :: 0 <= i < |cs| ==> |cs[i].matchers| == 1
    ensures |out| == |cs|
    ensures forall i :: 0 <= i < |cs| ==> out[i] == Reprinted(cs[i], src, ids("txt", i), ids("cat", i))
  {
    if cs == [] then []
    else
      var n := |cs| - 1;
      ReprintedAll(cs[..n], src, ids) + [Reprinted(cs[n], src, ids("txt", n), ids("cat", n))]
  }

  lemma OneLineMore(lines: seq<string>, src: string, ids: Ids, before: seq<Content>, c: Content)
    requires lines != [] && ParseLines(lines[..|lines| - 1], src, ids) == Rules(before)
    requires ParseLine(lines[|lines| - 1], src, ids, |lines| - 1) == Parsed(c)
    ensures ParseLines(lines, src, ids) == Rules(before + [c])
  {
    hide ParseLine;
  }

  lemma LinesOfFront(cs: seq<Content>, n: nat)
    requires n <= |cs|
    ensures LinesOf(cs)[..n] == LinesOf(cs[..n])
  {
  }

  lemma {:induction false} LinesRead(cs: seq<Content>, src: string, ids: Ids)
    requires AllShaped(cs)
    ensures forall i :: 0 <= i < |cs| ==> |cs[i].matchers| == 1
    ensures ParseLines(LinesOf(cs), src, ids) == Rules(ReprintedAll(cs, src, ids))
    decreases |cs|
  {
    OneMatcher(cs);
    if cs != [] {
      hide TxtLine, ParseTxt, Reprinted, Shaped, LinesOf, ParseLines;
      var n := |cs| - 1;
      LinesRead(cs[..n], src, ids);
      LinesOfFront(cs, n);
      LineReads(cs[n], src, ids("txt", n), ids("cat", n));
      OneLineMore(LinesOf(cs), src, ids, ReprintedAll(cs[..n], src, ids),
                  Reprinted(cs[n], src, ids("txt", n), ids("cat", n)));
    }
  }

  lemma OneMatcher(cs: seq<Content>)
    requires AllShaped(cs)
    ensures forall i :: 0 <= i < |cs| ==> |cs[i].matchers| == 1
  {
    forall i | 0 <= i < |cs|
      ensures |cs[i].matchers| == 1
    {
      assert Shaped(cs[i]);
    }
  }

  lemma TrimOneFeed(s: string)
    requires s != "" && !IsSpace(s[0]) && !IsSpace(s[|s| - 1])
    ensures TrimSpace(s + "\n") == s
  {
    var t := s + "\n";
    assert t[0] == s[0] && t[|s|] == '\n' && t[..|s|] == s;
    assert TrimLeft(t) == t && TrimRight(t) == TrimRight(s);
  }

  /** Shaped rules, printed as they are and read again. */
  lemma ShapedReads(cs: seq<Content>, src: string, ids: Ids)
    requires AllShaped(cs)
    ensures forall i :: 0 <= i < |cs| ==> |cs[i].matchers| == 1
    ensures ParseFn(Printed(cs), src, ids) == Rules(ReprintedAll(cs, src, ids))
  {
    hide Contains, Lines, ParseLines, TxtLine, Shaped, ValidRule, TrimSpace, Reprinted;
    LinesRead(cs, src, ids);
    if cs == [] {
      TrimNothing();
    } else {
      PrintedLines(cs);
      forall i | 0 <= i < |cs|
        ensures Printable(LinesOf(cs)[i])
      {
        LinePrintable(cs[i]);
      }
      LinesBack(LinesOf(cs));
      var s := JoinLines(LinesOf(cs));
      TrimOneFeed(s);
      NotAComment(s);
      var out := ReprintedAll(cs, src, ids);
      forall i | 0 <= i < |out|
        ensures Shaped(out[i])
      {
        ReprintedSame(cs[i], src, ids("txt", i), ids("cat", i));
      }
      ShapedValid(out);
    }
  }

  lemma TrimNothing()
    ensures TrimSpace("") == ""
  {
  }

  lemma SortShaped(cs: seq<Content>)
    requires AllShaped(cs)
    ensures AllShaped(SortBy(cs, ById))
  {
    SortByIsSort(cs, ById);
    var sorted := SortBy(cs, ById);
    forall i | 0 <= i < |sorted|
      ensures Shaped(sorted[i])
    {
      assert sorted[i] in multiset(sorted) && sorted[i] in multiset(cs);
    }
  }

  /** Any rule set read from TXT, printed and read again, comes back sorted by identifier, rule for rule: whatever the
      second reading allocates as identifiers. */
  lemma RoundTrip(data: string, src: string, ids: Ids, src2: string, ids2: Ids)
    requires ParseFn(data, src, ids).Rules?
    ensures var sorted := SortBy(ParseFn(data, src, ids).rules, ById);
            && (forall i :: 0 <= i < |sorted| ==> |sorted[i].matchers| == 1)
            && ParseFn(MarshalFn(ParseFn(data, src, ids).rules), src2, ids2) == Rules(ReprintedAll(sorted, src2, ids2))
  {
    hide ParseFn, AllShaped, Printed;
    ParsedShaped(data, src, ids);
    var cs := ParseFn(data, src, ids).rules;
    SortShaped(cs);
    ShapedReads(SortBy(cs, ById), src2, ids2);
  }

  // ---- Sentences ----

  lemma SentenceParts(h: string, v: string, src: string, txtID: string, catID: string)
    requires Word(h) && Plain(v)
    ensures Fields(v) != [] && TrimSpace(Join(Fields(v))) == v && TrimSpace(Fields(v)[0]) == Fields(v)[0]
    ensures ParseTxt(h + " " + v, src, txtID, catID)
            == if h[0] == '#' || h[0] == ';' then Skip else ParseWords(ToUpper(h), Fields(v), src, txtID, catID)
  {
    hide Fields, Join, TrimSpace, ToUpper, Plain, ParseWords;
    LineWords(h, v);
    FirstOf(h, v);
    assert ([h] + Fields(v))[1..] == Fields(v);
    LowerFirst(v);
  }

  /** What a line means: the first word, up to letter case, says what the rule does, the others what it is for. */
  lemma SentenceReads(h: string, v: string, src: string, txtID: string, catID: string)
    requires Word(h) && Plain(v)
    ensures Fields(v) != []
    ensures var line := ParseTxt(h + " " + v, src, txtID, catID);
            var site := Matcher(if HasPrefix(v, "*.") then DomainSuffix else Domain, v);
            var cat := ToLower(Fields(v)[0]);
            && (h[0] == '#' || h[0] == ';' ==> line == Skip)
            && (EqualFold(h, "allow") ==> line == Parsed(Content(txtID, "", Allow, true, "", src, "", [site])))
            && (EqualFold(h, "block") ==> line == Parsed(Content(txtID, "", Block, true, "", src, "", [site])))
            && (EqualFold(h, "observe") ==> line == Parsed(Content(txtID, "", Observe, true, "", src, "", [site])))
            && (EqualFold(h, "ratelimit") || EqualFold(h, "rate_limit") ==>
                  line == Parsed(Content(txtID, "", RateLimit, true, "", src, "", [site])))
            && (EqualFold(h, "allow_category") ==>
                  line == Parsed(Content(txtID, "", Allow, true, "", src, "", [Matcher(Category, v)])))
            && (EqualFold(h, "block_category") ==>
                  line == Parsed(Content(catID, "", Block, true, cat, src, "", [Matcher(Category, cat)])))
            && (h[0] != '#' && h[0] != ';' && (forall t :: t in TOKENS ==> !EqualFold(h, t)) ==> line == Unknown(ToUpper(h)))
  {
    SentenceParts(h, v, src, txtID, catID);
    Tokens(h);
    TokensDiffer();
    if exists t :: t in TOKENS && EqualFold(h, t) {
      TokenStart(h);
    }
    hide Fields, Join, TrimSpace, ToUpper, ToLower, Plain, ParseTxt, EqualFold, Word;
  }

  /** No token starts a comment. */
  lemma TokenStart(h: string)
    requires h != "" && exists t :: t in TOKENS && EqualFold(h, t)
    ensures h[0] != '#' && h[0] != ';'
  {
    var t :| t in TOKENS && EqualFold(h, t);
    FoldExact(h, t);
    assert SameLetter(h[0], t[0]);
  }

  const TOKENS: seq<string> :=
    ["allow", "block", "observe", "ratelimit", "rate_limit", "allow_category", "block_category"]

  lemma FirstOf(h: string, v: string)
    requires Word(h)
    ensures HasPrefix(h + " " + v, "#") <==> h[0] == '#'
    ensures HasPrefix(h + " " + v, ";") <==> h[0] == ';'
  {
    var s := h + " " + v;
    assert s[0] == h[0] && s[..1] == [s[0]];
    assert "#" == ['#'] && ";" == [';'];
  }

  lemma TokensDiffer()
    ensures "ALLOW" != "BLOCK" && "OBSERVE" !in ["ALLOW", "BLOCK"]
    ensures "RATELIMIT" !in ["ALLOW", "BLOCK", "OBSERVE"] && "RATE_LIMIT" !in ["ALLOW", "BLOCK", "OBSERVE"]
    ensures "ALLOW_CATEGORY" !in ["ALLOW", "BLOCK", "OBSERVE", "RATELIMIT", "RATE_LIMIT", "BLOCK_CATEGORY"]
    ensures "BLOCK_CATEGORY" !in ["ALLOW", "BLOCK", "OBSERVE", "RATELIMIT", "RATE_LIMIT"]
  {
    assert "ALLOW"[0] != "BLOCK"[0] && "ALLOW_CATEGORY"[0] != "BLOCK_CATEGORY"[0];
  }

  lemma LowerFirst(v: string)
    requires Fields(v) != []
    ensures TrimSpace(Fields(v)[0]) == Fields(v)[0]
  {
    LowerWord(Fields(v)[0]);
  }

  lemma Tokens(h: string)
    ensures EqualFold(h, "allow") <==> ToUpper(h) == "ALLOW"
    ensures EqualFold(h, "block") <==> ToUpper(h) == "BLOCK"
    ensures EqualFold(h, "observe") <==> ToUpper(h) == "OBSERVE"
    ensures EqualFold(h, "ratelimit") <==> ToUpper(h) == "RATELIMIT"
    ensures EqualFold(h, "rate_limit") <==> ToUpper(h) == "RATE_LIMIT"
    ensures EqualFold(h, "allow_category") <==> ToUpper(h) == "ALLOW_CATEGORY"
    ensures EqualFold(h, "block_category") <==> ToUpper(h) == "BLOCK_CATEGORY"
  {
    hide ToUpper, EqualFold;
    UpperToken(h, "allow", "ALLOW");
    UpperToken(h, "block", "BLOCK");
    UpperToken(h, "observe", "OBSERVE");
    UpperToken(h, "ratelimit", "RATELIMIT");
    UpperToken(h, "rate_limit", "RATE_LIMIT");
    UpperToken(h, "allow_category", "ALLOW_CATEGORY");
    UpperToken(h, "block_category", "BLOCK_CATEGORY");
  }

  /** A token in either case. */
  lemma UpperToken(h: string, lower: string, upper: string)
    requires |lower| == |upper|
    requires forall i :: 0 <= i < |lower| ==> LowerChar(lower[i]) == lower[i] && UpperChar(lower[i]) == upper[i]
    ensures EqualFold(h, lower) <==> ToUpper(h) == upper
  {
    if |h| == |lower| {
      forall i | 0 <= i < |h|
        ensures ToLower(h)[i] == ToLower(lower)[i] <==> ToUpper(h)[i] == upper[i]
      {
        assert LowerChar(h[i]) == lower[i] <==> UpperChar(h[i]) == upper[i];
      }
    }
  }

  // ---- Texts that are left to the other readers ----

  /** A text is left to the JSON and YAML readers exactly when it starts with a bracket, a brace or a dash, or has "rules:" in
      it. */
  lemma StructuredExact(t: string)
    ensures LooksStructured(t) <==>
            || (t != "" && t[0] in ['[', '{', '-'])
            || exists i {:trigger t[i]} :: 0 <= i < |t| - 5 && t[i] == 'r' && t[i..i + 6] == "rules:"
  {
    if t != "" {
      assert t[..1] == [t[0]];
    }
    if Contains(t, "rules:") {
      var i :| 0 <= i <= |t| && OccursAt(t, i, "rules:");
      assert t[i] == t[i..i + 6][0] == 'r';
    }
    if exists i {:trigger t[i]} :: 0 <= i < |t| - 5 && t[i] == 'r' && t[i..i + 6] == "rules:" {
      var i {:trigger t[i]} :| 0 <= i < |t| - 5 && t[i] == 'r' && t[i..i + 6] == "rules:";
      assert OccursAt(t, i, "rules:");
    }
  }

  // ---- Printed rules that are read back, and those that are not ----

  /** The line of a rule with one matcher. */
  lemma PrintedOne(c: Content)
    requires |c.matchers| == 1
    ensures var (m, k) := (c.matchers[0], KindToken(c.kind));
            && (m.field in [Domain, DomainSuffix, Wildcard, IP, CIDR, ASN, DNS, SNI] ==> TxtLine(c) == k + " " + m.value)
            && (m.field == Protocol ==> TxtLine(c) == k + " " + ("protocol:" + m.value))
            && (m.field == Port ==> TxtLine(c) == k + " " + ("port:" + m.value))
            && (m.field.OtherField? ==> TxtLine(c) == k + " " + (m.field.name + ":" + m.value))
            && (m.field == Category ==> TxtLine(c) == k + "_CATEGORY " + ToUpper(m.value))
  {
    var ms := c.matchers;
    assert ms[..0] == [];
    var shown := if PrintedBare(ms[0].field) then ms[0].value else FieldName(ms[0].field) + ":" + ms[0].value;
    assert PrintedValues(ms) == [] + [shown];
    assert Join([shown]) == shown;
  }

  /** The line reads as a rule of the same kind with the same matchers, values up to letter case. */
  ghost predicate ReadsSame(c: Content, line: Line) {
    && line.Parsed? && line.rule.kind == c.kind && |line.rule.matchers| == |c.matchers|
    && forall i :: 0 <= i < |c.matchers| ==>
         && line.rule.matchers[i].field == c.matchers[i].field
         && EqualFold(line.rule.matchers[i].value, c.matchers[i].value)
  }

  /** Of the rules that validation accepts exactly these survive printing and parsing: those with one matcher, its value of
      words with single blanks between them, on a domain without star, on a starred suffix, or, for allow and block rules, on
      a category, which for a block rule is one word. */
  lemma PrintedReadsIff(c: Content, src: string, txtID: string, catID: string)
    requires Accepted(c.kind, c.matchers)
    ensures ReadsSame(c, ParseTxt(TxtLine(c), src, txtID, catID)) <==>
            && |c.matchers| == 1
            && var m := c.matchers[0];
               && Plain(m.value)
               && (|| (m.field == Domain && !HasPrefix(m.value, "*."))
                   || (m.field == DomainSuffix && HasPrefix(m.value, "*."))
                   || (m.field == Category && (c.kind == Allow || (c.kind == Block && Word(m.value)))))
  {
    hide ParseTxt, TxtLine, Fields, Plain, Word, EqualFold;
    OneMatcherRead(TxtLine(c), src, txtID, catID);
    if |c.matchers| == 1 {
      var m := c.matchers[0];
      assert m in c.matchers;
      if !Plain(m.value) {
        var line := ParseTxt(TxtLine(c), src, txtID, catID);
        if ReadsSame(c, line) {
          PlainFold(line.rule.matchers[0].value, m.value);
        }
      } else if m.field == Category {
        CategoryReadsIff(c, src, txtID, catID);
      } else {
        SiteReadsIff(c, src, txtID, catID);
      }
    }
  }

  /** White space has no case. */
  lemma SpaceFold(a: string, b: string)
    requires EqualFold(a, b)
    ensures |a| == |b| && forall i :: 0 <= i < |a| ==> (IsSpace(a[i]) <==> IsSpace(b[i]))
    ensures forall i :: 0 <= i < |a| && IsSpace(a[i]) ==> a[i] == b[i]
  {
    FoldExact(a, b);
    assert forall i :: 0 <= i < |a| ==> SameLetter(a[i], b[i]);
  }

  lemma PlainFold(a: string, b: string)
    requires EqualFold(a, b) && Plain(a)
    ensures Plain(b)
  {
    hide EqualFold, IsSpace;
    SpaceFold(a, b);
  }

  lemma SiteReadsIff(c: Content, src: string, txtID: string, catID: string)
    requires !c.kind.OtherKind? && |c.matchers| == 1 && Plain(c.matchers[0].value)
    requires c.matchers[0].field != Category && !c.matchers[0].field.OtherField?
    ensures var m := c.matchers[0];
            ReadsSame(c, ParseTxt(TxtLine(c), src, txtID, catID)) <==>
            (m.field == Domain && !HasPrefix(m.value, "*.")) || (m.field == DomainSuffix && HasPrefix(m.value, "*."))
  {
    hide ParseTxt, TxtLine, Fields, Plain, Word, ToLower, HasPrefix;
    var m := c.matchers[0];
    PrintedOne(c);
    KindHead(c.kind);
    ShownPlain(m);
    assert TxtLine(c) == KindToken(c.kind) + " " + Shown(m);
    SentenceReads(KindToken(c.kind), Shown(m), src, txtID, catID);
  }

  lemma CategoryReadsIff(c: Content, src: string, txtID: string, catID: string)
    requires !c.kind.OtherKind? && |c.matchers| == 1 && Plain(c.matchers[0].value) && c.matchers[0].field == Category
    ensures ReadsSame(c, ParseTxt(TxtLine(c), src, txtID, catID)) <==>
            c.kind == Allow || (c.kind == Block && Word(c.matchers[0].value))
  {
    hide ParseTxt, TxtLine, Fields, Plain, ToLower, ToUpper, HasPrefix, IsSpace, EqualFold;
    var v, h := c.matchers[0].value, KindToken(c.kind) + "_CATEGORY";
    PrintedOne(c);
    CategoryHead(c.kind);
    PlainUpper(v);
    assert TxtLine(c) == h + " " + ToUpper(v);
    SentenceReads(h, ToUpper(v), src, txtID, catID);
    UpperFolds(v);
    if c.kind == Block {
      FirstWordIff(v);
    } else if c.kind == Observe || c.kind == RateLimit {
      NoSuchToken(c.kind);
    }
  }

  lemma UpperFolds(v: string)
    ensures EqualFold(ToUpper(v), v)
  {
    LowerOfUpper(v);
  }

  /** The first word of a text is the whole text, up to letter case, exactly when the text is one word. */
  lemma FirstWordIff(v: string)
    requires Plain(v) && Fields(ToUpper(v)) != []
    ensures EqualFold(ToLower(Fields(ToUpper(v))[0]), v) <==> Word(v)
  {
    hide Fields, IsSpace, ToUpper, ToLower;
    var w := Fields(ToUpper(v))[0];
    LowerWord(w);
    UpperFolds(v);
    if EqualFold(ToLower(w), v) {
      SpaceFold(ToLower(w), v);
    }
    if Word(v) {
      SpaceFold(ToUpper(v), v);
      WordFields(ToUpper(v));
      LowerOfUpper(v);
      LowerWord(ToUpper(v));
    }
  }

  lemma NoSuchToken(k: Kind)
    requires k == Observe || k == RateLimit
    ensures var h := KindToken(k) + "_CATEGORY";
            h[0] != '#' && h[0] != ';' && forall t :: t in TOKENS ==> !EqualFold(h, t)
  {
    var h := KindToken(k) + "_CATEGORY";
    forall t | t in TOKENS
      ensures |t| != |h|
    {
    }
  }

  /** A rule read from a line has one matcher, its value of words with single blanks between them. */
  lemma OneMatcherRead(text: string, src: string, txtID: string, catID: string)
    ensures var line := ParseTxt(text, src, txtID, catID);
            line.Parsed? ==> |line.rule.matchers| == 1 && Plain(line.rule.matchers[0].value)
  {
    hide Join, TrimSpace, ToUpper, Plain, PlainRule, CategoryRule;
    var words := Fields(TrimSpace(text));
    if |words| >= 2 {
      assert words[1] in words;
      SiteValue(words[1..]);
      LowerWord(words[1]);
    }
  }

  lemma SiteValue(words: seq<string>)
    requires words != [] && forall i :: 0 <= i < |words| ==> Word(words[i])
    ensures forall k, f, src, id :: var r := PlainRule(k, f, words, src, id); |r.matchers| == 1 && Plain(r.matchers[0].value)
    ensures forall k, src, id :: var r := CategoryRule(k, words[0], src, id); |r.matchers| == 1 && Plain(r.matchers[0].value)
  {
    JoinPlain(words);
    PlainEnds(Join(words));
    TrimPlain(Join(words));
    LowerWord(words[0]);
  }

  /** What is printed behind the kind. */
  function Shown(m: Matcher): string {
    if PrintedBare(m.field) then m.value else FieldName(m.field) + ":" + m.value
  }

  lemma ShownPlain(m: Matcher)
    requires Plain(m.value) && !m.field.OtherField?
    ensures Plain(Shown(m))
  {
    var s, k := Shown(m), |Shown(m)| - |m.value|;
    var name := FieldName(m.field);
    assert forall i :: 0 <= i < |name| ==> !IsSpace(name[i]);
    assert forall i :: k <= i < |s| ==> s[i] == m.value[i - k];
  }

  lemma UpperSame(s: string)
    requires forall i :: 0 <= i < |s| ==> s[i] == '_' || 'A' <= s[i] <= 'Z'
    ensures ToUpper(s) == s && NoSpace(s)
  {
  }

  lemma KindHead(k: Kind)
    requires !k.OtherKind?
    ensures Word(KindToken(k)) && EqualFold(KindToken(k), KindName(k))
  {
    hide EqualFold;
    UpperSame(KindToken(k));
    Tokens(KindToken(k));
  }

  lemma CategoryHead(k: Kind)
    requires !k.OtherKind?
    ensures var h := KindToken(k) + "_CATEGORY";
            && Word(h)
            && (k == Allow ==> EqualFold(h, "allow_category")) && (k == Block ==> EqualFold(h, "block_category"))
  {
    hide EqualFold;
    var h := KindToken(k) + "_CATEGORY";
    UpperSame(h);
    Tokens(h);
    assert k == Allow ==> h == "ALLOW_CATEGORY";
    assert k == Block ==> h == "BLOCK_CATEGORY";
  }
}
