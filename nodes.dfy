/**
  The node executor of the scenario engine: the per-run state (tool results and emitted
  text fragments), the placeholder substitution `{=@TOOL.FIELD=}`, the one-tool dispatch
  and the yes/no parse of the classifier's reply.
*/
module Nodes {
  import opened Wrappers
  import opened Strings
  import Tools

  /** The fields one tool returned, by name. */
  type Fields = map<string, string>

  /** `tool_results`: the last result of each tool invoked in the run, by tool name. */
  type ToolResults = map<string, Fields>

  // ---------------------------------------------------------------------------
  // Placeholders: the pattern \{=@(\w+)\.(\w+)=\}
  // ---------------------------------------------------------------------------

  /** The two groups of one match of the placeholder pattern. */
  datatype Placeholder = Placeholder(tool: string, field: string)

  /** The text of a placeholder, `{=@tool.field=}`. */
  function Token(p: Placeholder): (t: string)
    ensures |t| == |p.tool| + |p.field| + 6
  {
    "{=@" + p.tool + "." + p.field + "=}"
  }

  /** A string matched by `\w+`. */
  predicate IsName(s: string) {
    s != [] && forall i :: 0 <= i < |s| ==> IsWordChar(s[i])
  }

  /** Both groups are matched by `\w+`, so the token is one the pattern recognises. */
  predicate IsPlaceholder(p: Placeholder) {
    IsName(p.tool) && IsName(p.field)
  }

  /** Some placeholder of the pattern occurs somewhere in `s`. */
  ghost predicate HasPlaceholder(s: string) {
    exists p: Placeholder, j: nat | j <= |s| :: IsPlaceholder(p) && OccursAt(s, Token(p), j)
  }

  /** The length of the longest run of word characters starting at `i`. */
  function WordRun(s: string, i: nat): (n: nat)
    requires i <= |s|
    ensures i + n <= |s|
    ensures forall j :: i <= j < i + n ==> IsWordChar(s[j])
    ensures i + n == |s| || !IsWordChar(s[i + n])
    decreases |s| - i
  {
    if i < |s| && IsWordChar(s[i]) then 1 + WordRun(s, i + 1) else 0
  }

  /** A run of `n` word characters followed by a non-word character (or the end) is the longest run. */
  lemma WordRunExact(s: string, i: nat, n: nat)
    requires i + n <= |s|
    requires forall j :: i <= j < i + n ==> IsWordChar(s[j])
    requires i + n == |s| || !IsWordChar(s[i + n])
    ensures WordRun(s, i) == n
  {
  }

  /**
    The match of the pattern at index `i`, if any. Neither `.` nor `=` is a word character,
    so each greedy `\w+` takes the whole run and backtracking never finds another match.
  */
  function MatchAt(s: string, i: nat): (r: Option<Placeholder>)
    requires i <= |s|
    ensures r.Some? ==> IsPlaceholder(r.value) && OccursAt(s, Token(r.value), i)
  {
    if i + 3 <= |s| && s[i] == '{' && s[i + 1] == '=' && s[i + 2] == '@' then
      var t := WordRun(s, i + 3);
      var dot := i + 3 + t;
      if t > 0 && dot < |s| && s[dot] == '.' then
        var f := WordRun(s, dot + 1);
        var close := dot + 1 + f;
        if f > 0 && close + 2 <= |s| && s[close] == '=' && s[close + 1] == '}' then
          TokenFromParts(s, i, dot, close);
          Some(Placeholder(s[i + 3..dot], s[dot + 1..close]))
        else None
      else None
    else None
  }

  /** The punctuation of the pattern around two runs of `s` makes the token of those runs. */
  lemma TokenFromParts(s: string, i: nat, dot: nat, close: nat)
    requires i + 3 <= dot < close && close + 2 <= |s|
    requires s[i] == '{' && s[i + 1] == '=' && s[i + 2] == '@' && s[dot] == '.'
    requires s[close] == '=' && s[close + 1] == '}'
    ensures OccursAt(s, Token(Placeholder(s[i + 3..dot], s[dot + 1..close])), i)
  {
    assert s[i..close + 2] == s[i..i + 3] + s[i + 3..dot] + s[dot..dot + 1] + s[dot + 1..close] + s[close..close + 2];
    assert s[i..i + 3] == "{=@";
    assert s[dot..dot + 1] == ".";
    assert s[close..close + 2] == "=}";
  }

  /** Where the groups and the punctuation sit inside a token. */
  lemma TokenLayout(p: Placeholder)
    ensures var tok, t, f := Token(p), |p.tool|, |p.field|;
      && tok[0] == '{' && tok[1] == '=' && tok[2] == '@'
      && tok[3..3 + t] == p.tool && tok[3 + t] == '.'
      && tok[4 + t..4 + t + f] == p.field
      && tok[4 + t + f] == '=' && tok[5 + t + f] == '}'
  {
    var tok, t, f := Token(p), |p.tool|, |p.field|;
    assert tok == "{=@" + p.tool + "." + p.field + "=}";
  }

  /** An occurrence of a token at `i` puts the punctuation of the pattern at these places of `s`. */
  lemma TokenPunctuationAt(s: string, i: nat, p: Placeholder)
    requires OccursAt(s, Token(p), i)
    ensures var t, f := |p.tool|, |p.field|;
      && s[i] == '{' && s[i + 1] == '=' && s[i + 2] == '@'
      && s[i + 3 + t] == '.' && s[i + 4 + t + f] == '=' && s[i + 5 + t + f] == '}'
  {
    var tok, t, f := Token(p), |p.tool|, |p.field|;
    TokenLayout(p);
    var w := s[i..i + |tok|];
    assert w == tok;
    assert s[i] == w[0] && s[i + 1] == w[1] && s[i + 2] == w[2];
    assert s[i + 3 + t] == w[3 + t] && s[i + 4 + t + f] == w[4 + t + f] && s[i + 5 + t + f] == w[5 + t + f];
  }

  /** An occurrence of a token at `i` puts its two names at these places of `s`. */
  lemma TokenNamesAt(s: string, i: nat, p: Placeholder)
    requires OccursAt(s, Token(p), i)
    ensures var t, f := |p.tool|, |p.field|;
      s[i + 3..i + 3 + t] == p.tool && s[i + 4 + t..i + 4 + t + f] == p.field
  {
    var tok, t, f := Token(p), |p.tool|, |p.field|;
    TokenLayout(p);
    var w := s[i..i + |tok|];
    SliceOfSlice(s, i, i + |tok|, 3, 3 + t);
    SliceOfSlice(s, i, i + |tok|, 4 + t, 4 + t + f);
  }

  /** Every occurrence of a placeholder of the pattern at `i` is found by `MatchAt`. */
  lemma MatchAtComplete(s: string, i: nat, p: Placeholder)
    requires i <= |s| && IsPlaceholder(p) && OccursAt(s, Token(p), i)
    ensures MatchAt(s, i) == Some(p)
  {
    var t, f := |p.tool|, |p.field|;
    TokenPunctuationAt(s, i, p);
    TokenNamesAt(s, i, p);
    NameRun(s, i + 3, p.tool);
    NameRun(s, i + 4 + t, p.field);
    MatchAtUnfold(s, i, p);
  }

  /** A name at `j` followed by a non-word character is the longest run of word characters there. */
  lemma NameRun(s: string, j: nat, name: string)
    requires IsName(name) && j + |name| < |s| && s[j..j + |name|] == name && !IsWordChar(s[j + |name|])
    ensures WordRun(s, j) == |name|
  {
    WordsOfName(s, j, name);
    WordRunExact(s, j, |name|);
  }

  /** The match at `i` when the punctuation and the two longest runs are those of the token of `p`. */
  lemma MatchAtUnfold(s: string, i: nat, p: Placeholder)
    requires var t, f := |p.tool|, |p.field|;
      && i + 6 + t + f <= |s| && t > 0 && f > 0
      && s[i] == '{' && s[i + 1] == '=' && s[i + 2] == '@'
      && s[i + 3 + t] == '.' && s[i + 4 + t + f] == '=' && s[i + 5 + t + f] == '}'
      && s[i + 3..i + 3 + t] == p.tool && s[i + 4 + t..i + 4 + t + f] == p.field
      && WordRun(s, i + 3) == t && WordRun(s, i + 4 + t) == f
    ensures MatchAt(s, i) == Some(p)
  {
  }

  /** A name sitting at `i` in `s` makes a run of word characters there. */
  lemma WordsOfName(s: string, i: nat, name: string)
    requires IsName(name) && i + |name| <= |s| && s[i..i + |name|] == name
    ensures forall j :: i <= j < i + |name| ==> IsWordChar(s[j])
  {
    forall j | i <= j < i + |name| ensures IsWordChar(s[j]) {
      assert s[j] == s[i..i + |name|][j - i];
    }
  }

  /**
    Python's `re.findall` of the pattern from index `i`: after a match the scan goes on
    at the end of the match, otherwise at the next index.
  */
  function FindAll(s: string, i: nat): seq<Placeholder>
    requires i <= |s|
    decreases |s| - i
  {
    if i == |s| then []
    else
      match MatchAt(s, i)
      case Some(p) => [p] + FindAll(s, i + |Token(p)|)
      case None => FindAll(s, i + 1)
  }

  /** Every placeholder the scan returns is one of the pattern and occurs in the text. */
  lemma {:induction false} FindAllSound(s: string, i: nat)
    requires i <= |s|
    ensures forall k :: 0 <= k < |FindAll(s, i)| ==> IsPlaceholder(FindAll(s, i)[k]) && Contains(s, Token(FindAll(s, i)[k]))
    decreases |s| - i
  {
    if i < |s| {
      var m := MatchAt(s, i);
      if m.None? {
        FindAllOnMiss(s, i);
        FindAllSound(s, i + 1);
      } else {
        var p := m.value;
        FindAllOnMatch(s, i, p);
        FindAllSound(s, i + |Token(p)|);
        var r, rest := FindAll(s, i), FindAll(s, i + |Token(p)|);
        assert OccursAt(s, Token(p), i);
        forall k | 0 <= k < |r|
          ensures IsPlaceholder(r[k]) && Contains(s, Token(r[k]))
        {
          if k > 0 {
            assert r[k] == rest[k - 1];
          }
        }
      }
    }
  }

  /** Inside a token of the pattern, `{` occurs only at its start. */
  lemma TokenBraceOnlyAtStart(q: Placeholder, k: nat)
    requires IsPlaceholder(q) && 0 < k < |Token(q)|
    ensures Token(q)[k] != '{'
  {
    var tok, t, f := Token(q), |q.tool|, |q.field|;
    TokenLayout(q);
    if 3 <= k < 3 + t {
      assert tok[k] == tok[3..3 + t][k - 3] == q.tool[k - 3];
    } else if 4 + t <= k < 4 + t + f {
      assert tok[k] == tok[4 + t..4 + t + f][k - 4 - t] == q.field[k - 4 - t];
    }
  }

  /** A `{` after the start of an occurrence of a token lies after its end. */
  lemma BraceAfterToken(s: string, i: nat, q: Placeholder, j: nat)
    requires IsPlaceholder(q) && OccursAt(s, Token(q), i) && i < j < |s| && s[j] == '{'
    ensures i + |Token(q)| <= j
  {
    if j < i + |Token(q)| {
      assert s[j] == s[i..i + |Token(q)|][j - i];
      TokenBraceOnlyAtStart(q, j - i);
    }
  }

  /** Tokens never overlap: a token occurring after the start of another one starts after its end. */
  lemma TokensApart(s: string, i: nat, q: Placeholder, j: nat, p: Placeholder)
    requires IsPlaceholder(q) && OccursAt(s, Token(q), i) && OccursAt(s, Token(p), j) && i < j
    ensures i + |Token(q)| <= j
  {
    TokenPunctuationAt(s, j, p);
    BraceAfterToken(s, i, q, j);
  }

  /** Two placeholders of the pattern whose tokens occur at the same index are the same. */
  lemma SameStartSamePlaceholder(s: string, i: nat, p: Placeholder, q: Placeholder)
    requires i <= |s| && IsPlaceholder(p) && IsPlaceholder(q)
    requires OccursAt(s, Token(p), i) && OccursAt(s, Token(q), i)
    ensures p == q
  {
    MatchAtComplete(s, i, p);
    MatchAtComplete(s, i, q);
  }

  /** A match at `i` is the first thing the scan from `i` returns; the scan resumes after it. */
  lemma FindAllOnMatch(s: string, i: nat, q: Placeholder)
    requires i < |s| && MatchAt(s, i) == Some(q)
    ensures FindAll(s, i) == [q] + FindAll(s, i + |Token(q)|)
  {
  }

  /** Without a match at `i`, the scan goes on at the next index. */
  lemma FindAllOnMiss(s: string, i: nat)
    requires i < |s| && MatchAt(s, i).None?
    ensures FindAll(s, i) == FindAll(s, i + 1)
  {
  }

  /** One step of the scan from `i`: at most one match, then the scan goes on from `next`. */
  lemma ScanStep(s: string, i: nat) returns (next: nat, head: seq<Placeholder>)
    requires i < |s|
    ensures i < next <= |s| && FindAll(s, i) == head + FindAll(s, next)
    ensures head == [] ==> next == i + 1
    ensures head != [] ==> |head| == 1 && IsPlaceholder(head[0]) && OccursAt(s, Token(head[0]), i)
                           && next == i + |Token(head[0])|
  {
    var m := MatchAt(s, i);
    if m.None? {
      next, head := i + 1, [];
      FindAllOnMiss(s, i);
    } else {
      next, head := i + |Token(m.value)|, [m.value];
      FindAllOnMatch(s, i, m.value);
    }
  }

  /** Every placeholder occurring at or after `i` is among the matches the scan from `i` returns. */
  lemma {:induction false} FindAllComplete(s: string, i: nat, j: nat, p: Placeholder)
    requires i <= j <= |s| && IsPlaceholder(p) && OccursAt(s, Token(p), j)
    ensures p in FindAll(s, i)
    decreases |s| - i
  {
    if i == j {
      MatchAtComplete(s, i, p);
      FindAllOnMatch(s, i, p);
    } else {
      var next, head := ScanStep(s, i);
      if head != [] {
        TokenPunctuationAt(s, j, p);
        BraceAfterToken(s, i, head[0], j);
      }
      FindAllComplete(s, next, j, p);
    }
  }

  /** A stretch of indices where nothing matches is skipped by the scan. */
  lemma {:induction false} FindAllSkip(s: string, i: nat, k: nat)
    requires i <= k <= |s|
    requires forall j :: i <= j < k ==> MatchAt(s, j).None?
    ensures FindAll(s, i) == FindAll(s, k)
    decreases k - i
  {
    if i < k {
      assert FindAll(s, i) == FindAll(s, i + 1) by {
        FindAllOnMiss(s, i);
      }
      FindAllSkip(s, i + 1, k);
    }
  }

  /** The scan finds nothing exactly when no placeholder of the pattern occurs in the text. */
  lemma FindAllEmptyIff(s: string)
    ensures FindAll(s, 0) == [] <==> !HasPlaceholder(s)
  {
    if HasPlaceholder(s) {
      var p: Placeholder, j: nat :| j <= |s| && IsPlaceholder(p) && OccursAt(s, Token(p), j);
      FindAllComplete(s, 0, j, p);
    }
    if FindAll(s, 0) != [] {
      FindAllSound(s, 0);
      var p := FindAll(s, 0)[0];
      var j: nat :| j <= |s| && OccursAt(s, Token(p), j);
      assert IsPlaceholder(p) && OccursAt(s, Token(p), j);
    }
  }

  // ---------------------------------------------------------------------------
  // Substitution
  // ---------------------------------------------------------------------------

  /** `fields.get(name, "")`. */
  function FieldValue(fields: Fields, name: string): string {
    if name in fields then fields[name] else ""
  }

  /** One pass of the substitution loop: a placeholder of a tool with a result is replaced everywhere. */
  function ApplyOne(text: string, p: Placeholder, results: ToolResults): string {
    if p.tool in results then Replace(text, Token(p), FieldValue(results[p.tool], p.field)) else text
  }

  /** The substitution loop over the matches, each pass on the text the previous passes produced. */
  function ApplyAll(text: string, ps: seq<Placeholder>, results: ToolResults): string
    decreases |ps|
  {
    if ps == [] then text else ApplyAll(ApplyOne(text, ps[0], results), ps[1..], results)
  }

  /** `_substitute_variables`: the matches are found in the original text, then replaced one by one. */
  function Substitute(text: string, results: ToolResults): string {
    ApplyAll(text, FindAll(text, 0), results)
  }

  /** A pass for a tool with a result: the text is split at every occurrence of the token and rejoined with the field's value. */
  lemma ApplyOneReplacesEverywhere(text: string, p: Placeholder, results: ToolResults)
    requires p.tool in results
    ensures var pieces := SplitOn(text, Token(p));
      && Join(pieces, Token(p)) == text
      && (forall k :: 0 <= k < |pieces| ==> !Contains(pieces[k], Token(p)))
      && ApplyOne(text, p, results) == Join(pieces, FieldValue(results[p.tool], p.field))
  {
    JoinSplitOn(text, Token(p));
    SplitOnPiecesFree(text, Token(p));
    ReplaceIsJoinOfSplit(text, Token(p), FieldValue(results[p.tool], p.field));
  }

  /** Passes for tools without a result leave the text as it is. */
  lemma {:induction false} ApplyAllAbsentTools(text: string, ps: seq<Placeholder>, results: ToolResults)
    requires forall k :: 0 <= k < |ps| ==> ps[k].tool !in results
    ensures ApplyAll(text, ps, results) == text
    decreases |ps|
  {
    if ps != [] {
      ApplyAllAbsentTools(text, ps[1..], results);
    }
  }

  /** Substitution is the identity on a text in which no placeholder of the pattern occurs. */
  lemma SubstituteWithoutPlaceholders(text: string, results: ToolResults)
    requires !HasPlaceholder(text)
    ensures Substitute(text, results) == text
  {
    FindAllEmptyIff(text);
  }

  /** A text whose every placeholder names a tool without a result is returned verbatim. */
  lemma SubstituteAbsentTools(text: string, results: ToolResults)
    requires forall p :: IsPlaceholder(p) && Contains(text, Token(p)) ==> p.tool !in results
    ensures Substitute(text, results) == text
  {
    FindAllSound(text, 0);
    ApplyAllAbsentTools(text, FindAll(text, 0), results);
  }

  /** Before any tool has run, substitution changes nothing. */
  lemma SubstituteWithoutResults(text: string)
    ensures Substitute(text, map[]) == text
  {
    ApplyAllAbsentTools(text, FindAll(text, 0), map[]);
  }

  /** A text that is one placeholder becomes the field's value (`""` if the field is missing), or stays if its tool has no result. */
  lemma SubstituteToken(p: Placeholder, results: ToolResults)
    requires IsPlaceholder(p)
    ensures Substitute(Token(p), results)
         == if p.tool in results then FieldValue(results[p.tool], p.field) else Token(p)
  {
    var s := Token(p);
    assert OccursAt(s, s, 0);
    MatchAtComplete(s, 0, p);
    assert FindAll(s, 0) == [p];
    assert [p][1..] == [];
    assert Substitute(s, results) == ApplyAll(ApplyOne(s, p, results), [], results) == ApplyOne(s, p, results);
    if p.tool in results {
      var v := FieldValue(results[p.tool], p.field);
      assert s[..|s|] == s && s[|s|..] == [];
      assert Replace(s, s, v) == v + Replace([], s, v);
      assert v + [] == v;
    }
  }

  /** A token does not contain the token of a different placeholder. */
  lemma TokenFreeOfOther(p: Placeholder, q: Placeholder)
    requires IsPlaceholder(p) && IsPlaceholder(q) && p != q
    ensures !Contains(Token(p), Token(q))
  {
    var tp := Token(p);
    if Contains(tp, Token(q)) {
      var k: nat :| k <= |tp| && OccursAt(tp, Token(q), k);
      assert OccursAt(tp, tp, 0);
      if k == 0 {
        SameStartSamePlaceholder(tp, 0, p, q);
      } else {
        TokensApart(tp, 0, p, k, q);
      }
    }
  }

  /** No occurrence of the token of `q` straddles the start of an occurrence of the token of `p` at `|a|`. */
  lemma CutBeforeToken(a: string, rest: string, p: Placeholder, q: Placeholder)
    requires IsPlaceholder(q) && OccursAt(rest, Token(p), 0)
    ensures forall k: nat :: k < |a| < k + |Token(q)| ==> !OccursAt(a + rest, Token(q), k)
  {
    var s, tq := a + rest, Token(q);
    assert s[|a|..] == rest;
    OccursInSuffix(s, |a|, Token(p), 0);
    forall k: nat | k < |a| < k + |tq|
      ensures !OccursAt(s, tq, k)
    {
      if OccursAt(s, tq, k) {
        TokensApart(s, k, q, |a|, p);
      }
    }
  }

  /** No occurrence of the token of `q` straddles the end of the token of `p` at the start of a text. */
  lemma CutAfterToken(p: Placeholder, b: string, q: Placeholder)
    requires IsPlaceholder(p) && IsPlaceholder(q)
    ensures forall k: nat :: k < |Token(p)| < k + |Token(q)| ==> !OccursAt(Token(p) + b, Token(q), k)
  {
    var tp, tq := Token(p), Token(q);
    var s := tp + b;
    assert s[..|tp|] == tp;
    assert OccursAt(s, tp, 0);
    forall k: nat | k < |tp| < k + |tq|
      ensures !OccursAt(s, tq, k)
    {
      if OccursAt(s, tq, k) {
        if k == 0 {
          SameStartSamePlaceholder(s, 0, p, q);
        } else {
          TokensApart(s, 0, p, k, q);
        }
      }
    }
  }

  /** Replacing the token of `q` in the token of `p` gives the replacement when they are the same, and changes nothing otherwise. */
  lemma ReplaceInToken(p: Placeholder, q: Placeholder, v: string)
    requires IsPlaceholder(p) && IsPlaceholder(q)
    ensures Replace(Token(p), Token(q), v) == if p == q then v else Token(p)
  {
    var tp := Token(p);
    if p == q {
      assert tp[..|tp|] == tp && tp[|tp|..] == [];
      assert Replace(tp, tp, v) == v + Replace([], tp, v);
      assert v + [] == v;
    } else {
      TokenFreeOfOther(p, q);
      ReplaceAbsent(tp, Token(q), v);
    }
  }

  /**
    One `text.replace` of the token of `q` on a text holding the token of `p`: the token of
    `p` becomes the replacement when `p` is `q` and stays otherwise, and the text on either
    side is replaced on its own.
  */
  lemma ReplaceAroundToken(a: string, p: Placeholder, b: string, q: Placeholder, v: string)
    requires IsPlaceholder(p) && IsPlaceholder(q)
    ensures Replace(a + Token(p) + b, Token(q), v)
         == Replace(a, Token(q), v) + (if p == q then v else Token(p)) + Replace(b, Token(q), v)
  {
    var tp, tq := Token(p), Token(q);
    var mid, rb := if p == q then v else tp, Replace(b, tq, v);
    assert a + tp + b == a + (tp + b);
    assert (tp + b)[..|tp|] == tp;
    CutBeforeToken(a, tp + b, p, q);
    ReplaceConcat(a, tp + b, tq, v);
    ReplaceTokenThenText(p, b, q, v);
    assert Replace(a, tq, v) + (mid + rb) == Replace(a, tq, v) + mid + rb;
  }

  /** The replacement on a text that starts with a token: the token as `ReplaceInToken` says, then the rest on its own. */
  lemma ReplaceTokenThenText(p: Placeholder, b: string, q: Placeholder, v: string)
    requires IsPlaceholder(p) && IsPlaceholder(q)
    ensures Replace(Token(p) + b, Token(q), v) == (if p == q then v else Token(p)) + Replace(b, Token(q), v)
  {
    CutAfterToken(p, b, q);
    ReplaceConcat(Token(p), b, Token(q), v);
    ReplaceInToken(p, q, v);
  }

  /** A pass for another placeholder keeps an occurrence of this placeholder's token. */
  lemma PassKeepsToken(text: string, p: Placeholder, q: Placeholder, v: string)
    requires IsPlaceholder(p) && IsPlaceholder(q) && p != q && Contains(text, Token(p))
    ensures Contains(Replace(text, Token(q), v), Token(p))
  {
    var tp := Token(p);
    var j: nat :| j <= |text| && OccursAt(text, tp, j);
    var a, b := text[..j], text[j + |tp|..];
    assert text == a + tp + b;
    ReplaceAroundToken(a, p, b, q, v);
    var ra := Replace(a, Token(q), v);
    var r := ra + tp + Replace(b, Token(q), v);
    assert r[|ra|..|ra| + |tp|] == tp;
    assert OccursAt(r, tp, |ra|);
  }

  /** The passes of the loop keep the token of a placeholder whose tool has no result. */
  lemma {:induction false} ApplyAllKeepsAbsent(text: string, ps: seq<Placeholder>, p: Placeholder, results: ToolResults)
    requires IsPlaceholder(p) && p.tool !in results && Contains(text, Token(p))
    requires forall k :: 0 <= k < |ps| ==> IsPlaceholder(ps[k])
    ensures Contains(ApplyAll(text, ps, results), Token(p))
    decreases |ps|
  {
    if ps != [] {
      var q := ps[0];
      if q.tool in results {
        PassKeepsToken(text, p, q, FieldValue(results[q.tool], q.field));
      }
      ApplyAllKeepsAbsent(ApplyOne(text, q, results), ps[1..], p, results);
    }
  }

  /** A placeholder whose tool has no result is left in the text, whatever else the text holds. */
  lemma AbsentToolTokenSurvives(text: string, p: Placeholder, results: ToolResults)
    requires IsPlaceholder(p) && p.tool !in results && Contains(text, Token(p))
    ensures Contains(Substitute(text, results), Token(p))
  {
    FindAllSound(text, 0);
    ApplyAllKeepsAbsent(text, FindAll(text, 0), p, results);
  }

  /** A text without placeholders holds no token of the pattern. */
  lemma NoPlaceholderNoToken(s: string, p: Placeholder)
    requires !HasPlaceholder(s) && IsPlaceholder(p)
    ensures !Contains(s, Token(p))
  {
  }

  /** Before a token, in a prefix without placeholders, nothing matches. */
  lemma NoMatchBefore(a: string, p: Placeholder, b: string, i: nat)
    requires IsPlaceholder(p) && !HasPlaceholder(a) && i < |a|
    ensures MatchAt(a + Token(p) + b, i).None?
  {
    var s := a + Token(p) + b;
    assert s[|a|..|a| + |Token(p)|] == Token(p);
    if MatchAt(s, i).Some? {
      var q := MatchAt(s, i).value;
      if i + |Token(q)| <= |a| {
        assert s[..|a|] == a;
        OccursInPrefix(s, |a|, Token(q), i);
      } else {
        TokensApart(s, i, q, |a|, p);
      }
    }
  }

  /** After a token, in a suffix without placeholders, nothing matches. */
  lemma NoMatchAfter(a: string, p: Placeholder, b: string, i: nat)
    requires !HasPlaceholder(b) && |a| + |Token(p)| <= i <= |a + Token(p) + b|
    ensures MatchAt(a + Token(p) + b, i).None?
  {
    var s, d := a + Token(p) + b, |a| + |Token(p)|;
    assert s[d..] == b;
    if MatchAt(s, i).Some? {
      var q := MatchAt(s, i).value;
      OccursInSuffix(s, d, Token(q), i - d);
    }
  }

  /** The scan of a token between texts without placeholders finds exactly that token. */
  lemma FindAllOnlyToken(a: string, p: Placeholder, b: string)
    requires IsPlaceholder(p) && !HasPlaceholder(a) && !HasPlaceholder(b)
    ensures FindAll(a + Token(p) + b, 0) == [p]
  {
    var s, d := a + Token(p) + b, |a| + |Token(p)|;
    forall i | 0 <= i < |a| ensures MatchAt(s, i).None? {
      NoMatchBefore(a, p, b, i);
    }
    FindAllSkip(s, 0, |a|);
    assert s[|a|..d] == Token(p);
    MatchAtComplete(s, |a|, p);
    forall i | d <= i < |s| ensures MatchAt(s, i).None? {
      NoMatchAfter(a, p, b, i);
    }
    FindAllSkip(s, d, |s|);
  }

  /**
    A placeholder between texts without placeholders (`"Hello, {=@tool.field=}!"`) becomes the
    field's value (`""` if the field is missing) when its tool has a result, and stays otherwise.
  */
  lemma SubstituteInText(a: string, p: Placeholder, b: string, results: ToolResults)
    requires IsPlaceholder(p) && !HasPlaceholder(a) && !HasPlaceholder(b)
    ensures Substitute(a + Token(p) + b, results)
         == a + (if p.tool in results then FieldValue(results[p.tool], p.field) else Token(p)) + b
  {
    FindAllOnlyToken(a, p, b);
    SubstituteOneMatch(a + Token(p) + b, p, results);
    if p.tool in results {
      NoPlaceholderNoToken(a, p);
      NoPlaceholderNoToken(b, p);
      ReplaceTokenInText(a, p, b, FieldValue(results[p.tool], p.field));
    }
  }

  /** A text with a single match is substituted by that match's pass alone. */
  lemma SubstituteOneMatch(text: string, p: Placeholder, results: ToolResults)
    requires FindAll(text, 0) == [p]
    ensures Substitute(text, results) == ApplyOne(text, p, results)
  {
    var once := ApplyOne(text, p, results);
    assert [p][1..] == [];
    assert ApplyAll(text, [p], results) == ApplyAll(once, [], results) == once;
  }

  /** Replacing a token that occurs once in a text replaces that one occurrence. */
  lemma ReplaceTokenInText(a: string, p: Placeholder, b: string, v: string)
    requires IsPlaceholder(p) && !Contains(a, Token(p)) && !Contains(b, Token(p))
    ensures Replace(a + Token(p) + b, Token(p), v) == a + v + b
  {
    ReplaceAroundToken(a, p, b, p, v);
    ReplaceAbsent(a, Token(p), v);
    ReplaceAbsent(b, Token(p), v);
  }

  /** A text without `{` holds no placeholder. */
  lemma NoBraceNoPlaceholder(s: string)
    requires '{' !in s
    ensures !HasPlaceholder(s)
  {
    if HasPlaceholder(s) {
      var p: Placeholder, j: nat :| j <= |s| && IsPlaceholder(p) && OccursAt(s, Token(p), j);
      TokenPunctuationAt(s, j, p);
    }
  }

  // ---------------------------------------------------------------------------
  // Tools and the classifier's reply
  // ---------------------------------------------------------------------------

  /** `tool_results` after `execute_tool(name)`: only `get_user_data` is known, and it writes its own entry only. */
  function InvokeTool(results: ToolResults, name: string): (r: ToolResults)
    ensures name == "get_user_data" ==> r.Keys == results.Keys + {name} && r[name] == Tools.GetUserData()
    ensures forall k :: k in results && k != "get_user_data" ==> k in r && r[k] == results[k]
    ensures name != "get_user_data" ==> r == results
  {
    if name == "get_user_data" then results[name := Tools.GetUserData()] else results
  }

  /** The parse of `execute_if`: the stripped, lower-cased reply starts with "да". */
  function ConditionMet(reply: string): bool {
    StartsWith(Lower(Strip(reply)), "да")
  }

  /** Only `Д` and `д` lower to `д`, and only `А` and `а` lower to `а`; none of them is whitespace. */
  lemma LowerAffirmativeLetters(c: char)
    ensures LowerChar(c) == 'д' ==> (c == 'Д' || c == 'д') && !IsSpace(c)
    ensures LowerChar(c) == 'а' ==> (c == 'А' || c == 'а') && !IsSpace(c)
  {
  }

  /**
    The condition holds exactly when the reply, after its leading whitespace, begins with
    a character lowering to `д` followed by one lowering to `а`; trailing whitespace never matters.
  */
  lemma ConditionMetIff(reply: string)
    ensures ConditionMet(reply) <==>
      var t := TrimLeft(reply);
      |t| >= 2 && LowerChar(t[0]) == 'д' && LowerChar(t[1]) == 'а'
  {
    if ConditionMet(reply) {
      ConditionMetLetters(reply);
    }
    var t := TrimLeft(reply);
    if |t| >= 2 && LowerChar(t[0]) == 'д' && LowerChar(t[1]) == 'а' {
      LettersConditionMet(reply);
    }
  }

  /** The first direction of `ConditionMetIff`. */
  lemma ConditionMetLetters(reply: string)
    requires ConditionMet(reply)
    ensures var t := TrimLeft(reply); |t| >= 2 && LowerChar(t[0]) == 'д' && LowerChar(t[1]) == 'а'
  {
    var t := TrimLeft(reply);
    var u := TrimRight(t);
    LowerStartsWithDa(u);
    assert u[0] == t[0] && u[1] == t[1];
  }

  /** The second direction of `ConditionMetIff`. */
  lemma LettersConditionMet(reply: string)
    requires var t := TrimLeft(reply); |t| >= 2 && LowerChar(t[0]) == 'д' && LowerChar(t[1]) == 'а'
    ensures ConditionMet(reply)
  {
    var t := TrimLeft(reply);
    LowerAffirmativeLetters(t[1]);
    TrimRightKeepsHead(t);
    LowerStartsWithDa(TrimRight(t));
  }

  /** A string lowers to one starting with "да" exactly when its first two characters lower to `д` and `а`. */
  lemma LowerStartsWithDa(u: string)
    ensures StartsWith(Lower(u), "да") <==> |u| >= 2 && LowerChar(u[0]) == 'д' && LowerChar(u[1]) == 'а'
  {
    var lu := Lower(u);
    if |u| >= 2 {
      assert lu[..2] == [lu[0], lu[1]];
    }
  }

  /** Right-trimming keeps the first two characters when the second is not whitespace. */
  lemma TrimRightKeepsHead(t: string)
    requires |t| >= 2 && !IsSpace(t[1])
    ensures |TrimRight(t)| >= 2 && TrimRight(t)[0] == t[0] && TrimRight(t)[1] == t[1]
  {
  }

  /** A reply that starts with a non-space character is its own left-trim. */
  lemma TrimLeftNoSpace(reply: string)
    requires reply != [] && !IsSpace(reply[0])
    ensures TrimLeft(reply) == reply
  {
  }

  /** The bare affirmative gives true. */
  lemma AffirmativeMet()
    ensures ConditionMet("да")
  {
    TrimLeftNoSpace("да");
    ConditionMetIff("да");
  }

  /** An affirmative sentence gives true. */
  lemma AffirmativeSentenceMet()
    ensures ConditionMet("да, это так")
  {
    var r := "да, это так";
    TrimLeftNoSpace(r);
    ConditionMetIff(r);
  }

  /** Whitespace before the reply does not change the outcome. */
  lemma LeadingWhitespaceIgnored(ws: string, reply: string)
    requires forall i :: 0 <= i < |ws| ==> IsSpace(ws[i])
    ensures ConditionMet(ws + reply) == ConditionMet(reply)
  {
    TrimLeftSpaces(ws, reply);
    ConditionMetIff(ws + reply);
    ConditionMetIff(reply);
  }

  /** A negative reply gives false. */
  lemma NegativeNotMet()
    ensures !ConditionMet("нет")
  {
    var r := "нет";
    TrimLeftNoSpace(r);
    ConditionMetIff(r);
  }

  /** An empty reply gives false. */
  lemma EmptyNotMet()
    ensures !ConditionMet("")
  {
    ConditionMetIff("");
  }

  // ---------------------------------------------------------------------------
  // The executor
  // ---------------------------------------------------------------------------

  /** `NodeExecutor`: the state of one scenario run. */
  class NodeExecutor {
    var toolResults: ToolResults
    var scenarioContext: seq<string>

    /** A run starts with no tool results and no text. */
    constructor ()
      ensures toolResults == map[] && scenarioContext == []
    {
      toolResults := map[];
      scenarioContext := [];
    }

    /** `execute_text`: appends the substituted text (the node's `text`, `""` when absent) and nothing else. */
    method ExecuteText(text: string)
      modifies this
      ensures scenarioContext == old(scenarioContext) + [Substitute(text, old(toolResults))]
      ensures toolResults == old(toolResults)
    {
      var substituted := SubstituteVariables(text);
      scenarioContext := scenarioContext + [substituted];
    }

    /** `execute_tool`: runs and stores `get_user_data`; any other name changes nothing. */
    method ExecuteTool(toolName: string)
      modifies this
      ensures toolResults == InvokeTool(old(toolResults), toolName)
      ensures scenarioContext == old(scenarioContext)
    {
      if toolName == "get_user_data" {
        var result := Tools.GetUserData();
        toolResults := toolResults[toolName := result];
      }
    }

    /** `execute_if`, given the classifier's reply to the question built from the condition and the user's message. */
    method ExecuteIf(reply: string) returns (met: bool)
      ensures met == ConditionMet(reply)
    {
      var answer := Lower(Strip(reply));
      met := StartsWith(answer, "да");
    }

    /** `execute_end` does nothing. */
    method ExecuteEnd() {
    }

    /** `_substitute_variables` on the current tool results. */
    method SubstituteVariables(text: string) returns (r: string)
      ensures r == Substitute(text, toolResults)
    {
      var matches := FindAll(text, 0);
      r := text;
      for k := 0 to |matches|
        invariant ApplyAll(r, matches[k..], toolResults) == Substitute(text, toolResults)
      {
        var p := matches[k];
        assert matches[k..][1..] == matches[k + 1..];
        if p.tool in toolResults {
          var value := FieldValue(toolResults[p.tool], p.field);
          r := Replace(r, Token(p), value);
        }
      }
    }

    /** `get_context`: the fragments joined by newlines, in the order they were appended. */
    function GetContext(): (r: string)
      reads this
      ensures scenarioContext == [] ==> r == ""
      ensures scenarioContext != [] && (forall i :: 0 <= i < |scenarioContext| ==> '\n' !in scenarioContext[i])
              ==> Split(r, '\n') == scenarioContext
    {
      SplitJoinWhenFree(scenarioContext, '\n');
      Join(scenarioContext, "\n")
    }
  }
}
