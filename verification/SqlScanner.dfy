/** The EXPLAIN allowlist of the query exporter.

    The exporter decides whether a captured query text is one SELECT or WITH
    statement by skipping over comments and quoted regions with an index.  The
    reference here is a plain lexer that looks at one character at a time, with
    one character of lookahead, and gives every character a class. */
module SqlScanner {
  import opened SqlStatements

  // ---------------------------------------------------------------- reference

  /** Where the reference lexer stands.  A `Skip` mode consumes the second
      character of a two-character delimiter that has already been recognised. */
  datatype Mode =
    | Top
    | Line
    | Block(depth: nat)
    | BlockSkip(depth: nat)
    | Quoted(quote: char)
    | QuotedSkip(quote: char)

  predicate IsSQLSpace(c: char) {
    c == ' ' || c == '\t' || c == '\r' || c == '\n' || c == '\U{0C}' || c == '\U{0B}'
  }

  predicate CharAt(q: string, i: nat, c: char) {
    i < |q| && q[i] == c
  }

  function LexStep(q: string, i: nat, mode: Mode): (Class, Mode)
    requires i < |q|
  {
    var c := q[i];
    match mode
    case Top =>
      if c == '-' && CharAt(q, i + 1, '-') then (Comment, Line)
      else if c == '/' && CharAt(q, i + 1, '*') then (Comment, BlockSkip(1))
      else if IsSQLSpace(c) then (Space, Top)
      else if c == ';' then (Separator, Top)
      else if c == '\'' || c == '"' then (Content, Quoted(c))
      else (Content, Top)
    case Line => (Comment, if c == '\n' then Top else Line)
    case Block(d) =>
      if c == '/' && CharAt(q, i + 1, '*') then (Comment, BlockSkip(d + 1))
      else if c == '*' && CharAt(q, i + 1, '/') then (Comment, BlockSkip(if d == 0 then 0 else d - 1))
      else (Comment, Block(d))
    case BlockSkip(d) => (Comment, if d == 0 then Top else Block(d))
    case Quoted(k) =>
      if c != k then (Content, Quoted(k))
      else if CharAt(q, i + 1, k) then (Content, QuotedSkip(k))
      else (Content, Top)
    case QuotedSkip(k) => (Content, Quoted(k))
  }

  function ModeAt(q: string, i: nat): Mode
    requires i <= |q|
  {
    if i == 0 then Top else LexStep(q, i - 1, ModeAt(q, i - 1)).1
  }

  function ClassAt(q: string, i: nat): Class
    requires i < |q|
  {
    LexStep(q, i, ModeAt(q, i)).0
  }

  function Classes(q: string): seq<Class> {
    seq(|q|, i requires 0 <= i < |q| => ClassAt(q, i))
  }

  /** Leading material that the head scanner drops. */
  ghost predicate IsTrivia(q: string, j: nat)
    requires j < |q|
  {
    ClassAt(q, j) == Comment || IsBlank(q[j])
  }

  // ------------------------------------------------------------------ scanners

  /** The lexer does not come back to top level after `start` and before `i`. */
  ghost predicate InsideUntil(q: string, start: nat, i: nat)
    requires i <= |q|
  {
    forall k :: start < k < i ==> ModeAt(q, k) != Top
  }

  /** The block-comment loop: both scanners run it from the character after the opening delimiter. */
  method ScanBlockComment(q: string, start: nat) returns (i: nat, depth: nat)
    requires start + 2 <= |q| && ModeAt(q, start) == Top
    requires q[start] == '/' && q[start + 1] == '*'
    ensures start + 2 <= i <= |q|
    ensures forall k :: start <= k < i ==> ClassAt(q, k) == Comment
    ensures InsideUntil(q, start, i)
    ensures depth > 0 ==> i == |q|
    ensures depth == 0 ==> ModeAt(q, i) == Top
  {
    depth, i := 1, start + 2;
    assert ModeAt(q, start + 1) == BlockSkip(1);
    while i < |q| && depth > 0
      invariant start + 2 <= i <= |q|
      invariant ModeAt(q, i) == if depth == 0 then Top else Block(depth)
      invariant InsideComment(q, start, i)
      decreases |q| - i
    {
      BlockStep(q, start, i, depth);
      if i + 1 < |q| && q[i] == '/' && q[i + 1] == '*' {
        depth := depth + 1;
        i := i + 2;
      } else if i + 1 < |q| && q[i] == '*' && q[i + 1] == '/' {
        depth := depth - 1;
        i := i + 2;
      } else {
        i := i + 1;
      }
    }
  }

  ghost predicate InsideComment(q: string, start: nat, i: nat)
    requires i <= |q|
  {
    InsideUntil(q, start, i) && forall k :: start <= k < i ==> ClassAt(q, k) == Comment
  }

  lemma BlockStep(q: string, start: nat, i: nat, depth: nat)
    requires start < i < |q| && depth > 0 && ModeAt(q, i) == Block(depth) && InsideComment(q, start, i)
    ensures var opens, closes := q[i] == '/' && CharAt(q, i + 1, '*'), q[i] == '*' && CharAt(q, i + 1, '/');
            if opens || closes then
              && ModeAt(q, i + 2) == (if opens then Block(depth + 1) else if depth == 1 then Top else Block(depth - 1))
              && InsideComment(q, start, i + 2)
            else ModeAt(q, i + 1) == Block(depth) && InsideComment(q, start, i + 1)
  {
    if q[i] == '/' && CharAt(q, i + 1, '*') {
      assert ModeAt(q, i + 1) == BlockSkip(depth + 1);
    } else if q[i] == '*' && CharAt(q, i + 1, '/') {
      assert ModeAt(q, i + 1) == BlockSkip(depth - 1);
    }
  }

  method SkipSQLBlockComment(q: string, start: nat) returns (i: nat)
    requires start + 2 <= |q| && ModeAt(q, start) == Top
    requires q[start] == '/' && q[start + 1] == '*'
    ensures start + 2 <= i <= |q|
    ensures forall k :: start <= k < i ==> ClassAt(q, k) == Comment
    ensures InsideUntil(q, start, i)
    ensures i < |q| ==> ModeAt(q, i) == Top
  {
    var depth;
    i, depth := ScanBlockComment(q, start);
  }

  predicate NoNewline(q: string, start: nat, i: nat)
    requires i <= |q|
  {
    forall k :: start <= k < i ==> q[k] != '\n'
  }

  method IndexOfNewline(q: string, start: nat) returns (idx: int)
    requires start <= |q|
    ensures idx == -1 ==> NoNewline(q, start, |q|)
    ensures idx != -1 ==> start <= idx < |q| && q[idx] == '\n' && NoNewline(q, start, idx)
  {
    var i := start;
    while i < |q|
      invariant start <= i <= |q|
      invariant NoNewline(q, start, i)
    {
      if q[i] == '\n' { return i; }
      i := i + 1;
    }
    return -1;
  }

  lemma {:induction false} LineCommentRuns(q: string, start: nat, i: nat)
    requires start < i <= |q| && ModeAt(q, start) == Top
    requires q[start] == '-' && CharAt(q, start + 1, '-')
    requires NoNewline(q, start, i)
    ensures ModeAt(q, i) == Line && InsideUntil(q, start, i)
    ensures forall k :: start <= k < i ==> ClassAt(q, k) == Comment
  {
    if i > start + 1 { LineCommentRuns(q, start, i - 1); }
  }

  method SkipSQLLineComment(q: string, start: nat) returns (next: nat, atEnd: bool)
    requires start < |q| && ModeAt(q, start) == Top
    requires q[start] == '-' && CharAt(q, start + 1, '-')
    ensures start < next <= |q|
    ensures forall k :: start <= k < next ==> ClassAt(q, k) == Comment
    ensures InsideUntil(q, start, next)
    ensures atEnd ==> next == |q|
    ensures !atEnd ==> ModeAt(q, next) == Top
  {
    var idx := IndexOfNewline(q, start);
    if idx < 0 {
      LineCommentRuns(q, start, |q|);
      return |q|, true;
    }
    LineCommentRuns(q, start, idx);
    return idx + 1, false;
  }

  method SkipSQLQuoted(q: string, start: nat, quote: char) returns (i: nat)
    requires start < |q| && ModeAt(q, start) == Top
    requires q[start] == quote && (quote == '\'' || quote == '"')
    ensures start < i <= |q|
    ensures forall k :: start <= k < i ==> ClassAt(q, k) == Content
    ensures InsideUntil(q, start, i)
    ensures i < |q| ==> ModeAt(q, i) == Top
  {
    i := start + 1;
    while i < |q|
      invariant start < i <= |q|
      invariant ModeAt(q, i) == Quoted(quote) && InsideQuotes(q, start, i)
      decreases |q| - i
    {
      QuoteStep(q, start, i, quote);
      if q[i] != quote {
        i := i + 1;
      } else if i + 1 < |q| && q[i + 1] == quote {
        i := i + 2;
      } else {
        return i + 1;
      }
    }
  }

  ghost predicate InsideQuotes(q: string, start: nat, i: nat)
    requires i <= |q|
  {
    InsideUntil(q, start, i) && forall k :: start <= k < i ==> ClassAt(q, k) == Content
  }

  lemma QuoteStep(q: string, start: nat, i: nat, quote: char)
    requires start < i < |q| && ModeAt(q, i) == Quoted(quote) && InsideQuotes(q, start, i)
    ensures if q[i] == quote && CharAt(q, i + 1, quote) then
              ModeAt(q, i + 2) == Quoted(quote) && InsideQuotes(q, start, i + 2)
            else
              ModeAt(q, i + 1) == (if q[i] == quote then Top else Quoted(quote)) && InsideQuotes(q, start, i + 1)
  {
    if q[i] == quote && CharAt(q, i + 1, quote) { assert ModeAt(q, i + 1) == QuotedSkip(quote); }
  }

  /** The index-skipping scanner finds a second statement exactly when the
      reference lexer sees content after a separator. */
  method HasTopLevelStatementSeparator(q: string) returns (r: bool)
    ensures r <==> SeparatorThenContent(Classes(q), 0)
  {
    var sawSeparator := false;
    var i, n := 0, |q|;
    ghost var cs := Classes(q);
    while i < n
      invariant 0 <= i <= n == |q|
      invariant i < n ==> ModeAt(q, i) == Top
      invariant sawSeparator <==> exists k :: 0 <= k < i && cs[k] == Separator
      invariant !exists k, j :: 0 <= k < j < i && cs[k] == Separator && cs[j] == Content
      decreases n - i
    {
      var c := q[i];
      assert cs[i] == ClassAt(q, i);
      if c == '-' && i + 1 < n && q[i + 1] == '-' {
        var next, atEnd := SkipSQLLineComment(q, i);
        if atEnd { return false; }
        i := next;
      } else if c == '/' && i + 1 < n && q[i + 1] == '*' {
        i := SkipSQLBlockComment(q, i);
      } else if IsSQLSpace(c) {
        i := i + 1;
      } else if c == ';' {
        sawSeparator := true;
        i := i + 1;
      } else if sawSeparator {
        assert cs[i] == Content;
        return true;
      } else if c == '\'' || c == '"' {
        i := SkipSQLQuoted(q, i, c);
      } else {
        i := i + 1;
      }
    }
    return false;
  }

  lemma ModeStep(q: string, i: nat)
    requires 0 < i <= |q|
    ensures ModeAt(q, i) == LexStep(q, i - 1, ModeAt(q, i - 1)).1
  {}

  lemma LexStepInSuffix(q: string, k: nat, i: nat, mode: Mode)
    requires k + i < |q|
    ensures LexStep(q[k..], i, mode) == LexStep(q, k + i, mode)
  {}

  /** Restarting the lexer at a top-level position changes nothing after it. */
  lemma {:induction false} SuffixModes(q: string, k: nat, i: nat)
    requires k + i <= |q| && ModeAt(q, k) == Top
    ensures ModeAt(q[k..], i) == ModeAt(q, k + i)
  {
    if i > 0 {
      var mode := ModeAt(q, k + i - 1);
      SuffixModes(q, k, i - 1);
      LexStepInSuffix(q, k, i - 1, mode);
      ModeStep(q[k..], i);
      ModeStep(q, k + i);
    }
  }

  lemma SuffixClass(q: string, k: nat, i: nat)
    requires k + i < |q| && ModeAt(q, k) == Top
    ensures ClassAt(q[k..], i) == ClassAt(q, k + i)
  {
    SuffixModes(q, k, i);
    LexStepInSuffix(q, k, i, ModeAt(q, k + i));
  }

  /** How many characters a left trim drops. */
  method LeadingBlanks(q: string) returns (n: nat)
    ensures n <= |q|
    ensures forall j :: 0 <= j < n ==> IsBlank(q[j])
    ensures n < |q| ==> !IsBlank(q[n])
  {
    n := 0;
    while n < |q| && IsBlank(q[n])
      invariant 0 <= n <= |q|
      invariant forall j :: 0 <= j < n ==> IsBlank(q[j])
    {
      n := n + 1;
    }
  }

  lemma BlanksKeepTop(q: string, k: nat, n: nat)
    requires k <= n <= |q| && ModeAt(q, k) == Top
    requires forall j :: k <= j < n ==> IsBlank(q[j])
    ensures ModeAt(q, n) == Top
  {
    if k < n { BlanksKeepTop(q, k, n - 1); }
  }

  /** `rest` is a suffix reached at top level, with nothing but comments and blanks before it. */
  ghost predicate StrippedTo(q: string, rest: string) {
    && |rest| <= |q| && rest == q[|q| - |rest|..]
    && ModeAt(q, |q| - |rest|) == Top
    && forall j :: 0 <= j < |q| - |rest| ==> IsTrivia(q, j)
  }

  lemma StripBlanks(q: string, rest: string, n: nat)
    requires StrippedTo(q, rest) && n <= |rest|
    requires forall j :: 0 <= j < n ==> IsBlank(rest[j])
    ensures StrippedTo(q, rest[n..])
  {
    var k := |q| - |rest|;
    assert forall j :: k <= j < k + n ==> q[j] == rest[j - k];
    BlanksKeepTop(q, k, k + n);
    assert rest[n..] == q[k + n..];
  }

  lemma CommentInSuffix(q: string, k: nat, n: nat)
    requires k + n <= |q| && ModeAt(q, k) == Top
    requires forall i :: 0 <= i < n ==> ClassAt(q[k..], i) == Comment
    ensures forall j :: k <= j < k + n ==> ClassAt(q, j) == Comment
  {
    forall j | k <= j < k + n ensures ClassAt(q, j) == Comment { SuffixClass(q, k, j - k); }
  }

  lemma StripComment(q: string, rest: string, n: nat)
    requires StrippedTo(q, rest) && n <= |rest|
    requires forall i :: 0 <= i < n ==> ClassAt(rest, i) == Comment
    ensures forall j :: 0 <= j < |q| - |rest| + n ==> IsTrivia(q, j)
  {
    CommentInSuffix(q, |q| - |rest|, n);
  }

  lemma StripTerminatedComment(q: string, rest: string, n: nat)
    requires StrippedTo(q, rest) && n <= |rest| && ModeAt(rest, n) == Top
    requires forall j :: 0 <= j < |q| - |rest| + n ==> IsTrivia(q, j)
    ensures StrippedTo(q, rest[n..])
  {
    var k := |q| - |rest|;
    SuffixModes(q, k, n);
    assert rest[n..] == q[k + n..];
  }

  lemma StrippedHead(q: string, rest: string)
    requires StrippedTo(q, rest) && rest != []
    requires !IsBlank(rest[0]) && ClassAt(rest, 0) != Comment
    ensures !IsTrivia(q, |q| - |rest|)
  {
    SuffixClass(q, |q| - |rest|, 0);
  }

  /** Drops the longest prefix of comments and blanks; an unterminated comment drops everything. */
  method StripLeadingSQLComments(q: string) returns (rest: string)
    ensures |rest| <= |q| && rest == q[|q| - |rest|..]
    ensures forall j :: 0 <= j < |q| - |rest| ==> IsTrivia(q, j)
    ensures rest != [] ==> !IsTrivia(q, |q| - |rest|)
  {
    rest := q;
    while true
      invariant StrippedTo(q, rest)
      decreases |rest|
    {
      var blanks := LeadingBlanks(rest);
      StripBlanks(q, rest, blanks);
      rest := rest[blanks..];
      var skipped, unterminated := SkipOneComment(rest);
      if skipped == 0 {
        if rest != [] { StrippedHead(q, rest); }
        return;
      }
      StripComment(q, rest, skipped);
      if unterminated { return ""; }
      StripTerminatedComment(q, rest, skipped);
      rest := rest[skipped..];
    }
  }

  /** The comment at the start of `rest`, if there is one. */
  method SkipOneComment(rest: string) returns (skipped: nat, unterminated: bool)
    ensures skipped <= |rest|
    ensures forall i :: 0 <= i < skipped ==> ClassAt(rest, i) == Comment
    ensures skipped == 0 ==> rest == [] || ClassAt(rest, 0) != Comment
    ensures if unterminated then skipped == |rest| else ModeAt(rest, skipped) == Top
  {
    if 2 <= |rest| && rest[0] == '-' && rest[1] == '-' {
      skipped, unterminated := SkipSQLLineComment(rest, 0);
    } else if 2 <= |rest| && rest[0] == '/' && rest[1] == '*' {
      var depth;
      skipped, depth := ScanBlockComment(rest, 0);
      unterminated := depth > 0;
    } else {
      return 0, false;
    }
  }

  predicate HasKeywordPrefix(upper: string, keyword: string) {
    && keyword <= upper
    && (|upper| == |keyword| ||
        var c := upper[|keyword|];
        !('A' <= c <= 'Z' || '0' <= c <= '9' || c == '_'))
  }

  /** The prefix test on the upper-cased text is a test on the first word. */
  lemma KeywordPrefixIsFirstWord(rest: string, keyword: string)
    requires forall i :: 0 <= i < |keyword| ==> 'A' <= keyword[i] <= 'Z'
    ensures HasKeywordPrefix(Upper(rest), keyword) <==> Upper(WordAt(rest, 0)) == keyword
  {
    var w := WordAt(rest, 0);
    if HasKeywordPrefix(Upper(rest), keyword) {
      var n := |keyword|;
      forall i | 0 <= i < n ensures IsIdentChar(rest[i]) {
        assert Upper(rest)[i] == keyword[i] && Upper(rest)[i] == ToUpper(rest[i]);
      }
      assert |w| >= n;
      assert n < |rest| ==> Upper(rest)[n] == ToUpper(rest[n]) && !IsIdentChar(rest[n]);
      assert |w| == n;
      assert Upper(w) == keyword;
    }
    if Upper(w) == keyword {
      assert forall i :: 0 <= i < |keyword| ==> Upper(rest)[i] == Upper(w)[i];
      assert keyword <= Upper(rest);
      if |w| < |rest| { assert Upper(rest)[|w|] == ToUpper(rest[|w|]); }
    }
  }

  lemma WordInSuffix(q: string, k: nat, i: nat)
    requires k + i <= |q|
    ensures WordAt(q[k..], i) == WordAt(q, k + i)
    decreases |q| - i
  {
    if k + i < |q| { WordInSuffix(q, k, i + 1); }
  }

  // ------------------------------------------------------------ the allowlist

  lemma BlankIsNotContent(q: string, h: nat, j: nat)
    requires j < h <= |q|
    requires forall k :: 0 <= k < h ==> IsTrivia(q, k)
    ensures !ModeAt(q, j).Quoted? && !ModeAt(q, j).QuotedSkip?
    ensures ClassAt(q, j) == Comment || (ClassAt(q, j) == Space && ModeAt(q, j).Top? && IsBlank(q[j]))
  {
    assert IsTrivia(q, j);
    if j > 0 { BlankIsNotContent(q, h, j - 1); }
  }

  lemma HeadOfSingleQuery(q: string, h: nat)
    requires h < |q| && ClassAt(q, h) == Content && IsQueryWord(WordAt(q, h))
    requires forall j :: 0 <= j < h ==> IsTrivia(q, j)
    ensures IsSingleQuery(q, Classes(q)) <==> !SeparatorThenContent(Classes(q), 0)
  {
    forall j | 0 <= j < h ensures ClassAt(q, j) == Comment || (ClassAt(q, j) == Space && IsBlank(q[j])) {
      BlankIsNotContent(q, h, j);
    }
    SingleQueryAt(q, Classes(q), h);
  }

  /** The allowlist accepts a text exactly when the reference lexer splits it
      into one statement that begins with SELECT or WITH after comments and blanks. */
  method IsExplainSafe(queryText: string) returns (safe: bool)
    ensures safe <==> IsSingleQuery(queryText, Classes(queryText))
  {
    var stripped := StripLeadingSQLComments(queryText);
    var head := Upper(stripped);
    ghost var h := |queryText| - |stripped|;
    KeywordPrefixIsFirstWord(stripped, "SELECT");
    KeywordPrefixIsFirstWord(stripped, "WITH");
    WordInSuffix(queryText, h, 0);
    if !HasKeywordPrefix(head, "SELECT") && !HasKeywordPrefix(head, "WITH") {
      RejectedHead(queryText, h);
      return false;
    }
    AcceptedHead(queryText, h);
    HeadOfSingleQuery(queryText, h);
    var separated := HasTopLevelStatementSeparator(queryText);
    return !separated;
  }

  lemma AcceptedHead(q: string, h: nat)
    requires h <= |q| && forall j :: 0 <= j < h ==> IsTrivia(q, j)
    requires IsQueryWord(WordAt(q, h))
    requires h < |q| ==> !IsTrivia(q, h)
    ensures h < |q| && ClassAt(q, h) == Content
  {
    var w := WordAt(q, h);
    assert |Upper(w)| == |w| >= 4;
    assert Upper(w)[0] == ToUpper(w[0]);
    if h > 0 { ModeAfterTrivia(q, h); }
  }

  lemma ModeAfterTrivia(q: string, h: nat)
    requires h < |q| && forall j :: 0 <= j < h ==> IsTrivia(q, j)
    requires !IsTrivia(q, h)
    ensures ModeAt(q, h) == Top
  {
    if h > 0 { BlankIsNotContent(q, h, h - 1); }
  }

  /** The head of a single query is where the leading trivia ends. */
  lemma SingleQueryHead(q: string, h: nat)
    requires h <= |q| && forall j :: 0 <= j < h ==> IsTrivia(q, j)
    requires h < |q| ==> !IsTrivia(q, h)
    requires IsSingleQuery(q, Classes(q))
    ensures h < |q| && Statements(Classes(q))[0][0] == h
  {
    SplitHead(Classes(q), 0);
    var k := Statements(Classes(q))[0][0];
    assert ClassAt(q, k) == Content;
    if k < h { BlankIsNotContent(q, h, k); }
    forall j | 0 <= j < k ensures IsTrivia(q, j) { assert Classes(q)[j] == ClassAt(q, j); }
  }

  lemma RejectedHead(q: string, h: nat)
    requires h <= |q| && forall j :: 0 <= j < h ==> IsTrivia(q, j)
    requires h < |q| ==> !IsTrivia(q, h)
    requires !IsQueryWord(WordAt(q, h))
    ensures !IsSingleQuery(q, Classes(q))
  {
    if IsSingleQuery(q, Classes(q)) { SingleQueryHead(q, h); }
  }
}
