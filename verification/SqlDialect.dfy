/** What PostgreSQL itself makes of a text, compared with the scanner's lexer.

    The server's lexer also knows dollar-quoted strings, strings with backslash
    escapes (E'...') and their continuation after a line break, identifiers with a
    dollar sign, and line comments that end at a carriage return: sections 4.1.1,
    4.1.2.1, 4.1.2.2, 4.1.2.4 and 4.1.5 of the PostgreSQL documentation.  A plain
    string that continues is read like a new one. */
module SqlDialect {
  import opened SqlStatements
  import opened SqlScanner

  datatype Region = Quotes(quote: char) | Escapes | Dollar(tag: string)

  /** Where the server's lexer stands.  `Skip` consumes the rest of a delimiter or an escaped
      character, and then is inside the region or, when it closes the region, at top level.
      `Gap` follows an escape string as long as there are only white space and line comments, and
      remembers whether a line break was among them: then a quote continues the string. */
  datatype PgMode =
    | PgTop
    | PgWord
    | PgLine
    | PgBlock(depth: nat)
    | PgBlockSkip(depth: nat)
    | In(region: Region)
    | Skip(left: nat, around: Region, closing: bool)
    | Gap(newline: bool)
    | GapLine(newline: bool)

  predicate IsPgIdent(c: char) { IsIdentChar(c) || c >= '\U{0080}' }

  predicate IsDigit(c: char) { '0' <= c <= '9' }

  /** The longest run of identifier characters, dollar signs not counted, that starts at `k`. */
  function TagAt(q: string, k: nat): string
    decreases |q| - k
  {
    if k < |q| && IsPgIdent(q[k]) then [q[k]] + TagAt(q, k + 1) else []
  }

  predicate IsDelimiter(q: string, i: nat, tag: string) {
    CharAt(q, i, '$') && TagAt(q, i + 1) == tag && CharAt(q, i + 1 + |tag|, '$')
  }

  /** A tag may be empty and does not start with a digit. */
  predicate OpensDollar(q: string, i: nat) {
    var tag := TagAt(q, i + 1);
    IsDelimiter(q, i, tag) && (tag == "" || !IsDigit(tag[0]))
  }

  function TopStep(q: string, i: nat): (Class, PgMode)
    requires i < |q|
  {
    var c := q[i];
    if c == '-' && CharAt(q, i + 1, '-') then (Comment, PgLine)
    else if c == '/' && CharAt(q, i + 1, '*') then (Comment, PgBlockSkip(1))
    else if IsSQLSpace(c) then (Space, PgTop)
    else if c == ';' then (Separator, PgTop)
    else if c == '\'' || c == '"' then (Content, In(Quotes(c)))
    else if (c == 'E' || c == 'e') && CharAt(q, i + 1, '\'') then (Content, Skip(1, Escapes, false))
    else if OpensDollar(q, i) then
      var tag := TagAt(q, i + 1);
      (Content, Skip(|tag| + 1, Dollar(tag), false))
    else if IsPgIdent(c) && !IsDigit(c) then (Content, PgWord)
    else (Content, PgTop)
  }

  function RegionStep(q: string, i: nat, region: Region): PgMode
    requires i < |q|
  {
    var c := q[i];
    match region
    case Quotes(k) =>
      if c != k then In(region) else if CharAt(q, i + 1, k) then Skip(1, region, false) else PgTop
    case Escapes =>
      if c == '\\' then Skip(1, region, false)
      else if c != '\'' then In(region)
      else if CharAt(q, i + 1, '\'') then Skip(1, region, false) else Gap(false)
    case Dollar(tag) =>
      if IsDelimiter(q, i, tag) then Skip(|tag| + 1, region, true) else In(region)
  }

  predicate IsLineBreak(c: char) { c == '\n' || c == '\r' }

  function GapStep(q: string, i: nat, newline: bool): (Class, PgMode)
    requires i < |q|
  {
    var c := q[i];
    if newline && c == '\'' then (Content, In(Escapes))
    else if IsSQLSpace(c) then (Space, Gap(newline || IsLineBreak(c)))
    else if c == '-' && CharAt(q, i + 1, '-') then (Comment, GapLine(newline))
    else TopStep(q, i)
  }

  function PgStep(q: string, i: nat, mode: PgMode): (Class, PgMode)
    requires i < |q|
  {
    var c := q[i];
    match mode
    case PgTop => TopStep(q, i)
    case PgWord => if IsPgIdent(c) || c == '$' then (Content, PgWord) else TopStep(q, i)
    case PgLine => (Comment, if IsLineBreak(c) then PgTop else PgLine)
    case Gap(newline) => GapStep(q, i, newline)
    case GapLine(newline) => (Comment, if IsLineBreak(c) then Gap(true) else GapLine(newline))
    case PgBlock(d) =>
      if c == '/' && CharAt(q, i + 1, '*') then (Comment, PgBlockSkip(d + 1))
      else if c == '*' && CharAt(q, i + 1, '/') then (Comment, PgBlockSkip(if d == 0 then 0 else d - 1))
      else (Comment, PgBlock(d))
    case PgBlockSkip(d) => (Comment, if d == 0 then PgTop else PgBlock(d))
    case In(region) => (Content, RegionStep(q, i, region))
    case Skip(n, region, closing) =>
      (Content, if n > 1 then Skip(n - 1, region, closing) else if closing then PgTop else In(region))
  }

  function PgModeAt(q: string, i: nat): PgMode
    requires i <= |q|
  {
    if i == 0 then PgTop else PgStep(q, i - 1, PgModeAt(q, i - 1)).1
  }

  function PgClassAt(q: string, i: nat): Class
    requires i < |q|
  {
    PgStep(q, i, PgModeAt(q, i)).0
  }

  function PgClasses(q: string): seq<Class> {
    seq(|q|, i requires 0 <= i < |q| => PgClassAt(q, i))
  }

  predicate AtTop(mode: PgMode) { mode == PgTop || mode == PgWord || mode.Gap? }

  // ------------------------------------------------------- when nothing slips by

  /** Wherever the server is at top level, so is the scanner. */
  ghost predicate InStep(q: string) {
    forall i :: 0 <= i < |q| && AtTop(PgModeAt(q, i)) ==> ModeAt(q, i) == Top
  }

  lemma TopAgrees(q: string, i: nat)
    requires i < |q| && AtTop(PgModeAt(q, i)) && ModeAt(q, i) == Top
    ensures PgClassAt(q, i) == ClassAt(q, i)
  {
    TopClass(q, i);
  }

  lemma TopClass(q: string, i: nat)
    requires i < |q|
    ensures TopStep(q, i).0 == LexStep(q, i, Top).0
    ensures forall newline :: GapStep(q, i, newline).0 == LexStep(q, i, Top).0
  {}

  predicate InRegion(mode: PgMode) { mode.In? || mode.Skip? }

  /** Only content leads into a region, and only outside comments and regions is there a separator. */
  lemma RegionFacts(q: string, i: nat, mode: PgMode)
    requires i < |q|
    ensures InRegion(PgStep(q, i, mode).1) ==> PgStep(q, i, mode).0 == Content
    ensures PgStep(q, i, mode).0 == Separator ==> AtTop(mode) && q[i] == ';' && PgStep(q, i, mode).1 == PgTop
    ensures PgStep(q, i, mode).0 == Content && !InRegion(mode) ==> AtTop(mode)
  {}

  /** Content after a separator begins with content at top level. */
  lemma {:induction false} RegionStart(q: string, i: nat, j: nat) returns (s: nat)
    requires i < j < |q| && PgClassAt(q, i) == Separator && PgClassAt(q, j) == Content
    ensures i < s <= j && AtTop(PgModeAt(q, s)) && PgClassAt(q, s) == Content
  {
    RegionFacts(q, j, PgModeAt(q, j));
    RegionFacts(q, i, PgModeAt(q, i));
    if AtTop(PgModeAt(q, j)) { return j; }
    RegionFacts(q, j - 1, PgModeAt(q, j - 1));
    s := RegionStart(q, i, j - 1);
  }

  lemma SeparatorsAgree(q: string)
    requires InStep(q)
    ensures SeparatorThenContent(PgClasses(q), 0) ==> SeparatorThenContent(Classes(q), 0)
  {
    if SeparatorThenContent(PgClasses(q), 0) {
      var i, j :| 0 <= i < j < |q| && PgClasses(q)[i] == Separator && PgClasses(q)[j] == Content;
      var s := RegionStart(q, i, j);
      RegionFacts(q, i, PgModeAt(q, i));
      TopAgrees(q, i);
      TopAgrees(q, s);
      assert Classes(q)[i] == Separator && Classes(q)[s] == Content;
    }
  }

  predicate Mirrors(pg: PgMode, mode: Mode) {
    match mode
    case Top => pg == PgTop
    case Line => pg == PgLine
    case Block(d) => pg == PgBlock(d)
    case BlockSkip(d) => pg == PgBlockSkip(d)
    case _ => false
  }

  /** Up to the head of a query both lexers see the same comments and blanks. */
  lemma {:induction false} HeadInStep(q: string, h: nat, j: nat)
    requires InStep(q) && j <= h < |q| && forall k :: 0 <= k < h ==> IsTrivia(q, k)
    ensures Mirrors(PgModeAt(q, j), ModeAt(q, j))
    ensures j < h ==> PgClassAt(q, j) == ClassAt(q, j)
  {
    if j > 0 {
      HeadInStep(q, h, j - 1);
      BlankIsNotContent(q, h, j - 1);
      MirrorStep(q, j - 1, PgModeAt(q, j - 1), ModeAt(q, j - 1));
    }
    if j < h {
      BlankIsNotContent(q, h, j);
      MirrorStep(q, j, PgModeAt(q, j), ModeAt(q, j));
    }
  }

  lemma MirrorStep(q: string, i: nat, pg: PgMode, mode: Mode)
    requires i < |q| && Mirrors(pg, mode)
    requires LexStep(q, i, mode).0 == Comment || LexStep(q, i, mode).0 == Space
    ensures PgStep(q, i, pg).0 == LexStep(q, i, mode).0
    ensures Mirrors(PgStep(q, i, pg).1, LexStep(q, i, mode).1)
            || (AtTop(PgStep(q, i, pg).1) && LexStep(q, i, mode).1 == Line)
  {}

  /** When the scanner is at top level wherever the server is, what it accepts is one query to the server. */
  lemma InStepIsSafe(q: string)
    requires InStep(q) && IsSingleQuery(q, Classes(q))
    ensures IsSingleQuery(q, PgClasses(q))
  {
    var h := ScannerHead(q);
    forall j | 0 <= j < h ensures PgClasses(q)[j] == Classes(q)[j] { HeadInStep(q, h, j); }
    HeadInStep(q, h, h);
    TopAgrees(q, h);
    SingleQueryAt(q, Classes(q), h);
    SeparatorsAgree(q);
    SingleQueryAt(q, PgClasses(q), h);
  }

  lemma ScannerHead(q: string) returns (h: nat)
    requires IsSingleQuery(q, Classes(q))
    ensures h < |q| && ModeAt(q, h) == Top && Classes(q)[h] == Content && IsQueryWord(WordAt(q, h))
    ensures forall j :: 0 <= j < h ==> IsTrivia(q, j)
    ensures forall j :: 0 <= j < h ==> Classes(q)[j] == Comment || (Classes(q)[j] == Space && IsBlank(q[j]))
  {
    SplitHead(Classes(q), 0);
    h := Statements(Classes(q))[0][0];
    forall j | 0 <= j < h ensures IsTrivia(q, j) { assert Classes(q)[j] == ClassAt(q, j); }
    forall j | 0 <= j < h ensures ClassAt(q, j) == Comment || (ClassAt(q, j) == Space && IsBlank(q[j])) {
      BlankIsNotContent(q, h, j);
    }
    AcceptedHead(q, h);
    ModeAfterTrivia(q, h);
  }

  // ------------------------------------------------------------------ plain texts

  /** No dollar sign, no backslash and no carriage return. */
  predicate IsPlain(q: string) {
    forall i :: 0 <= i < |q| ==> q[i] != '$' && q[i] != '\\' && q[i] != '\r'
  }

  /** The modes of the two lexers before character `i` of a plain text. */
  predicate SameMode(q: string, i: nat, pg: PgMode, mode: Mode) {
    match pg
    case PgTop => mode == Top
    case PgWord => mode == Top
    case PgLine => mode == Line
    case Gap(_) => mode == Top
    case GapLine(_) => mode == Line
    case PgBlock(d) => mode == Block(d)
    case PgBlockSkip(d) => mode == BlockSkip(d)
    case In(Quotes(k)) => mode == Quoted(k)
    case In(Escapes) => mode == Quoted('\'')
    case In(Dollar(_)) => false
    case Skip(n, Quotes(k), closing) => n == 1 && !closing && mode == QuotedSkip(k)
    case Skip(n, Escapes, closing) =>
      n == 1 && !closing && (mode == QuotedSkip('\'') || (mode == Top && CharAt(q, i, '\'')))
    case Skip(_, Dollar(_), _) => false
  }

  lemma PlainStep(q: string, i: nat, pg: PgMode, mode: Mode)
    requires i < |q| && IsPlain(q) && SameMode(q, i, pg, mode)
    ensures PgStep(q, i, pg).0 == LexStep(q, i, mode).0
    ensures SameMode(q, i + 1, PgStep(q, i, pg).1, LexStep(q, i, mode).1)
  {}

  lemma {:induction false} PlainModes(q: string, i: nat)
    requires i <= |q| && IsPlain(q)
    ensures SameMode(q, i, PgModeAt(q, i), ModeAt(q, i))
    ensures i < |q| ==> PgClassAt(q, i) == ClassAt(q, i)
  {
    if i > 0 {
      PlainModes(q, i - 1);
      PlainStep(q, i - 1, PgModeAt(q, i - 1), ModeAt(q, i - 1));
    }
    if i < |q| { PlainStep(q, i, PgModeAt(q, i), ModeAt(q, i)); }
  }

  /** On a plain text the scanner and the server agree on every character, so the verdict is exact. */
  lemma PlainTextsAgree(q: string)
    requires IsPlain(q)
    ensures Classes(q) == PgClasses(q) && InStep(q)
  {
    forall i | 0 <= i < |q| ensures Classes(q)[i] == PgClasses(q)[i] { PlainModes(q, i); }
    forall i | 0 <= i < |q| && AtTop(PgModeAt(q, i)) ensures ModeAt(q, i) == Top { PlainModes(q, i); }
  }

  // -------------------------------------------------- when a statement slips by

  predicate IsHarmless(c: char) {
    c != '\'' && c != '"' && c != '*' && c != '/' && c != '-' && c != '\n'
  }

  /** `q` is `p` followed by a semicolon and whatever else. */
  ghost predicate Prolongs(p: string, q: string) {
    |p| < |q| && p == q[..|p|] && q[|p|] == ';'
  }

  /** `q` is `p` followed by a semicolon, a space, a word and anything without quotes, comment
      delimiters and newlines: another statement. */
  ghost predicate Continues(p: string, q: string) {
    && Prolongs(p, q) && |p| + 3 <= |q|
    && q[|p| + 1] == ' ' && IsIdentChar(q[|p| + 2])
    && forall k :: |p| <= k < |q| ==> IsHarmless(q[k])
  }

  predicate IsQuote(c: char) { c == '\'' || c == '"' }

  predicate Proper(mode: Mode) { mode.Quoted? || mode.QuotedSkip? ==> IsQuote(mode.quote) }

  predicate ProperRegion(region: Region) { region.Quotes? ==> IsQuote(region.quote) }

  predicate PgProper(mode: PgMode) {
    (mode.In? ==> ProperRegion(mode.region)) && (mode.Skip? ==> ProperRegion(mode.around))
  }

  lemma {:induction false} ModesAreProper(q: string, i: nat)
    requires i <= |q|
    ensures Proper(ModeAt(q, i))
  {
    if i > 0 { ModesAreProper(q, i - 1); }
  }

  lemma {:induction false} PgModesAreProper(q: string, i: nat)
    requires i <= |q|
    ensures PgProper(PgModeAt(q, i))
  {
    if i > 0 { PgModesAreProper(q, i - 1); }
  }

  /** What follows a text does not change how the text is read, as long as it begins with a semicolon. */
  lemma SameStep(p: string, q: string, i: nat, mode: Mode)
    requires Prolongs(p, q) && i < |p| && Proper(mode)
    ensures LexStep(q, i, mode) == LexStep(p, i, mode)
  {}

  lemma {:induction false} SameModes(p: string, q: string, i: nat)
    requires Prolongs(p, q) && i <= |p|
    ensures ModeAt(q, i) == ModeAt(p, i)
  {
    if i > 0 {
      SameModes(p, q, i - 1);
      ModesAreProper(p, i - 1);
      SameStep(p, q, i - 1, ModeAt(p, i - 1));
    }
  }

  lemma SameClass(p: string, q: string, i: nat)
    requires Prolongs(p, q) && i < |p|
    ensures ClassAt(q, i) == ClassAt(p, i)
  {
    SameModes(p, q, i);
    ModesAreProper(p, i);
    SameStep(p, q, i, ModeAt(p, i));
  }

  lemma {:induction false} SameTag(p: string, q: string, k: nat)
    requires Prolongs(p, q) && k <= |p|
    ensures TagAt(q, k) == TagAt(p, k)
    decreases |p| - k
  {
    if k < |p| { SameTag(p, q, k + 1); }
  }

  lemma {:induction false} TagFits(q: string, k: nat)
    requires k <= |q|
    ensures k + |TagAt(q, k)| <= |q|
    decreases |q| - k
  {
    if k < |q| { TagFits(q, k + 1); }
  }

  lemma SameDelimiter(p: string, q: string, i: nat, tag: string)
    requires Prolongs(p, q) && i < |p|
    ensures IsDelimiter(q, i, tag) == IsDelimiter(p, i, tag)
    ensures OpensDollar(q, i) == OpensDollar(p, i)
    ensures TagAt(q, i + 1) == TagAt(p, i + 1)
  {
    SameTag(p, q, i + 1);
    TagFits(p, i + 1);
  }

  lemma SameTopStep(p: string, q: string, i: nat)
    requires Prolongs(p, q) && i < |p|
    ensures TopStep(q, i) == TopStep(p, i)
  {
    SameDelimiter(p, q, i, "");
  }

  lemma SamePgStep(p: string, q: string, i: nat, mode: PgMode)
    requires Prolongs(p, q) && i < |p| && PgProper(mode)
    ensures PgStep(q, i, mode) == PgStep(p, i, mode)
  {
    SameTopStep(p, q, i);
    if mode.In? && mode.region.Dollar? { SameDelimiter(p, q, i, mode.region.tag); }
  }

  lemma SamePgModes(p: string, q: string, i: nat)
    requires Prolongs(p, q) && i <= |p|
    ensures PgModeAt(q, i) == PgModeAt(p, i)
  {
    for k := 0 to i
      invariant PgModeAt(q, k) == PgModeAt(p, k)
    {
      SamePgNext(p, q, k, PgModeAt(p, k));
    }
  }

  lemma SamePgNext(p: string, q: string, i: nat, mode: PgMode)
    requires Prolongs(p, q) && i < |p| && PgModeAt(p, i) == mode && PgModeAt(q, i) == mode
    ensures PgModeAt(q, i + 1) == PgModeAt(p, i + 1)
  {
    PgModesAreProper(p, i);
    SamePgStep(p, q, i, mode);
    PgModeStep(p, i + 1);
    PgModeStep(q, i + 1);
  }

  lemma PgModeStep(q: string, i: nat)
    requires 0 < i <= |q|
    ensures PgModeAt(q, i) == PgStep(q, i - 1, PgModeAt(q, i - 1)).1
  {}

  lemma SamePgClass(p: string, q: string, i: nat)
    requires Prolongs(p, q) && i < |p|
    ensures PgClassAt(q, i) == PgClassAt(p, i)
  {
    SamePgModes(p, q, i);
    PgModesAreProper(p, i);
    SamePgStep(p, q, i, PgModeAt(p, i));
  }

  lemma {:induction false} SameWord(p: string, q: string, k: nat)
    requires Prolongs(p, q) && k <= |p|
    ensures WordAt(q, k) == WordAt(p, k)
    decreases |p| - k
  {
    if k < |p| { SameWord(p, q, k + 1); }
  }

  /** The scanner, when it is not at top level at the end of the text, reads what follows as
      comment or quoted text. */
  lemma {:induction false} MoreIsSwallowed(p: string, q: string, k: nat)
    requires Continues(p, q) && 0 < |p| <= k <= |q| && ModeAt(p, |p|) != Top
    ensures ModeAt(q, k) == ModeAt(p, |p|) && !ModeAt(p, |p|).BlockSkip? && !ModeAt(p, |p|).QuotedSkip?
    ensures k < |q| ==> ClassAt(q, k) == if ModeAt(p, |p|).Quoted? then Content else Comment
  {
    ModesAreProper(p, |p|);
    if k == |p| { SameModes(p, q, |p|); } else { MoreIsSwallowed(p, q, k - 1); }
  }

  lemma PgHead(p: string) returns (h: nat)
    requires IsSingleQuery(p, PgClasses(p))
    ensures h < |p| && PgClasses(p)[h] == Content && IsQueryWord(WordAt(p, h))
    ensures forall j :: 0 <= j < h ==> PgClasses(p)[j] == Comment || (PgClasses(p)[j] == Space && IsBlank(p[j]))
  {
    SplitHead(PgClasses(p), 0);
    h := Statements(PgClasses(p))[0][0];
    forall j | 0 <= j < h ensures PgClasses(p)[j] == Comment || (PgClasses(p)[j] == Space && IsBlank(p[j])) {
      RegionFacts(p, j, PgModeAt(p, j));
    }
  }

  predicate StatementAt(q: string, n: nat) {
    n + 2 < |q| && q[n] == ';' && q[n + 1] == ' ' && IsIdentChar(q[n + 2])
  }

  lemma PgReadsStatement(q: string, n: nat)
    requires StatementAt(q, n) && AtTop(PgModeAt(q, n))
    ensures PgClassAt(q, n) == Separator && PgClassAt(q, n + 2) == Content
  {
    assert PgModeAt(q, n + 1) == PgTop;
    assert PgModeAt(q, n + 2) == PgTop;
  }

  lemma ScannerReadsStatement(q: string, n: nat)
    requires StatementAt(q, n) && ModeAt(q, n) == Top
    ensures ClassAt(q, n) == Separator && ClassAt(q, n + 2) == Content
  {
    assert ModeAt(q, n + 1) == Top;
    assert ModeAt(q, n + 2) == Top;
  }

  lemma SeparatorPair(cs: seq<Class>, i: nat, j: nat)
    requires i < j < |cs| && cs[i] == Separator && cs[j] == Content
    ensures SeparatorThenContent(cs, 0)
  {}

  lemma PgReadsMore(p: string, q: string)
    requires Continues(p, q) && AtTop(PgModeAt(p, |p|))
    ensures SeparatorThenContent(PgClasses(q), 0)
  {
    assert PgModeAt(q, |p|) == PgModeAt(p, |p|) by { SamePgModes(p, q, |p|); }
    PgReadsStatement(q, |p|);
    SeparatorPair(PgClasses(q), |p|, |p| + 2);
  }

  /** The server sees the appended statement. */
  lemma PgSeesMore(p: string, q: string)
    requires Continues(p, q) && IsSingleQuery(p, PgClasses(p)) && AtTop(PgModeAt(p, |p|))
    ensures !IsSingleQuery(q, PgClasses(q))
  {
    var h := PgHead(p);
    PgKeepsHead(p, q, h, PgClasses(p), PgClasses(q));
    PgReadsMore(p, q);
    SingleQueryAt(q, PgClasses(q), h);
  }

  lemma PgKeepsHead(p: string, q: string, h: nat, cs: seq<Class>, ds: seq<Class>)
    requires Continues(p, q) && h < |p| && cs == PgClasses(p) && ds == PgClasses(q)
    ensures WordAt(q, h) == WordAt(p, h)
    ensures forall j :: 0 <= j <= h ==> ds[j] == cs[j] && q[j] == p[j]
  {
    SameWord(p, q, h);
    forall j | 0 <= j <= h ensures ds[j] == cs[j] { SamePgClass(p, q, j); }
  }

  lemma LastIsQuoted(p: string)
    requires |p| > 0 && ModeAt(p, |p|).Quoted?
    ensures ClassAt(p, |p| - 1) == Content
  {}

  /** At top level the scanner sees the appended statement; otherwise it sees no further separator. */
  lemma SeparatorsOfMore(p: string, q: string)
    requires Continues(p, q) && |p| > 0 && !SeparatorThenContent(Classes(p), 0)
    ensures SeparatorThenContent(Classes(q), 0) <==> ModeAt(p, |p|) == Top
  {
    var n, cs := |p|, Classes(q);
    if ModeAt(p, n) == Top {
      SameModes(p, q, n);
      ScannerReadsStatement(q, n);
      assert cs[n] == Separator && cs[n + 2] == Content;
    } else if SeparatorThenContent(cs, 0) {
      var i, j :| 0 <= i < j < |cs| && cs[i] == Separator && cs[j] == Content;
      NoNewPair(p, q, i, j);
    }
  }

  /** No separator of the text comes before content of a text that has swallowed the rest. */
  lemma NoNewPair(p: string, q: string, i: nat, j: nat)
    requires Continues(p, q) && |p| > 0 && !SeparatorThenContent(Classes(p), 0) && ModeAt(p, |p|) != Top
    requires i < j < |q| && ClassAt(q, i) == Separator
    ensures ClassAt(q, j) != Content
  {
    if i >= |p| {
      MoreIsSwallowed(p, q, i);
    } else {
      SameClass(p, q, i);
      SeparatorLeavesTop(p, i);
      assert Classes(p)[i] == Separator;
      if j < |p| {
        SameClass(p, q, j);
        assert Classes(p)[j] != Content;
      } else {
        MoreIsSwallowed(p, q, j);
        assert Classes(p)[|p| - 1] != Content;
        if ModeAt(p, |p|).Quoted? { LastIsQuoted(p); }
      }
    }
  }

  lemma SeparatorLeavesTop(p: string, i: nat)
    requires i < |p| && ClassAt(p, i) == Separator && ModeAt(p, |p|) != Top
    ensures i < |p| - 1
  {}

  /** A statement appended to a text that is one query to the server, and is accepted, is missed by the
      scanner if and only if the scanner is not at top level at the end of the text.  The server
      always sees it. */
  lemma MissedExactly(p: string, q: string)
    requires Continues(p, q) && AtTop(PgModeAt(p, |p|))
    requires IsSingleQuery(p, Classes(p)) && IsSingleQuery(p, PgClasses(p))
    ensures !IsSingleQuery(q, PgClasses(q))
    ensures IsSingleQuery(q, Classes(q)) <==> ModeAt(p, |p|) != Top
  {
    PgSeesMore(p, q);
    var h := ScannerHead(p);
    SameWord(p, q, h);
    forall j | 0 <= j <= h ensures Classes(q)[j] == Classes(p)[j] { SameClass(p, q, j); }
    SingleQueryAt(p, Classes(p), h);
    SeparatorsOfMore(p, q);
    SingleQueryAt(q, Classes(q), h);
  }

  // ------------------------------------------------------- texts that slip by

  /** A text that is accepted, is one query to the server and ends at top level there, but not for
      the scanner. */
  ghost predicate OutOfStep(p: string) {
    && IsSingleQuery(p, Classes(p)) && IsSingleQuery(p, PgClasses(p))
    && AtTop(PgModeAt(p, |p|)) && ModeAt(p, |p|) != Top
  }

  lemma NoSemicolon(p: string)
    requires ';' !in p
    ensures !SeparatorThenContent(Classes(p), 0) && !SeparatorThenContent(PgClasses(p), 0)
  {
    forall i | 0 <= i < |p| ensures ClassAt(p, i) != Separator && PgClassAt(p, i) != Separator {
      RegionFacts(p, i, PgModeAt(p, i));
    }
  }

  predicate StartsWithSelect(p: string) {
    && |p| > 7 && p[0] == 'S' && p[1] == 'E' && p[2] == 'L' && p[3] == 'E' && p[4] == 'C' && p[5] == 'T'
    && p[6] == ' '
  }

  lemma SelectIsTheWord(p: string)
    requires StartsWithSelect(p)
    ensures IsQueryWord(WordAt(p, 0))
  {
    assert WordAt(p, 6) == "" && WordAt(p, 5) == "T" && WordAt(p, 4) == "CT";
    assert WordAt(p, 3) == "ECT" && WordAt(p, 2) == "LECT" && WordAt(p, 1) == "ELECT";
    assert WordAt(p, 0) == "SELECT";
    assert Upper("SELECT") == "SELECT";
  }

  lemma AfterSelect(p: string)
    requires StartsWithSelect(p)
    ensures ModeAt(p, 7) == Top && PgModeAt(p, 7) == PgTop && ClassAt(p, 0) == Content && PgClassAt(p, 0) == Content
  {
    assert ModeAt(p, 1) == Top;
    assert ModeAt(p, 2) == Top;
    assert ModeAt(p, 3) == Top;
    assert ModeAt(p, 4) == Top;
    assert ModeAt(p, 5) == Top;
    assert ModeAt(p, 6) == Top;
    assert PgModeAt(p, 1) == PgWord;
    assert PgModeAt(p, 2) == PgWord;
    assert PgModeAt(p, 3) == PgWord;
    assert PgModeAt(p, 4) == PgWord;
    assert PgModeAt(p, 5) == PgWord;
    assert PgModeAt(p, 6) == PgWord;
  }

  lemma SelectIsSingle(p: string)
    requires StartsWithSelect(p) && ';' !in p
    ensures IsSingleQuery(p, Classes(p)) && IsSingleQuery(p, PgClasses(p))
  {
    SelectIsTheWord(p);
    AfterSelect(p);
    NoSemicolon(p);
    SingleQueryAt(p, Classes(p), 0);
    SingleQueryAt(p, PgClasses(p), 0);
  }

  predicate EndsWith(p: string, a: char, b: char, c: char, d: char, e: char) {
    |p| == 12 && p[7] == a && p[8] == b && p[9] == c && p[10] == d && p[11] == e
  }

  /** A quote inside a dollar-quoted string. */
  lemma DollarQuoteModes(p: string)
    requires StartsWithSelect(p) && EndsWith(p, '$', '$', '\'', '$', '$')
    ensures ModeAt(p, 12) == Quoted('\'') && PgModeAt(p, 12) == PgTop
  {
    AfterSelect(p);
    assert ModeAt(p, 8) == Top;
    assert ModeAt(p, 9) == Top;
    assert ModeAt(p, 10) == Quoted('\'');
    assert ModeAt(p, 11) == Quoted('\'');
    assert TagAt(p, 8) == "" && TagAt(p, 11) == "";
    assert PgModeAt(p, 8) == Skip(1, Dollar(""), false);
    assert PgModeAt(p, 9) == In(Dollar(""));
    assert PgModeAt(p, 10) == In(Dollar(""));
    assert PgModeAt(p, 11) == Skip(1, Dollar(""), true);
  }

  /** An escaped quote inside a string with backslash escapes. */
  lemma EscapeModes(p: string)
    requires StartsWithSelect(p) && EndsWith(p, 'E', '\'', '\\', '\'', '\'')
    ensures ModeAt(p, 12) == Quoted('\'') && PgModeAt(p, 12) == Gap(false)
  {
    AfterSelect(p);
    assert ModeAt(p, 8) == Top;
    assert ModeAt(p, 9) == Quoted('\'');
    assert ModeAt(p, 10) == Quoted('\'');
    assert ModeAt(p, 11) == QuotedSkip('\'');
    assert PgModeAt(p, 8) == Skip(1, Escapes, false);
    assert PgModeAt(p, 9) == In(Escapes);
    assert PgModeAt(p, 10) == Skip(1, Escapes, false);
    assert PgModeAt(p, 11) == In(Escapes);
  }

  /** A line comment that ends at a carriage return. */
  lemma CarriageReturnModes(p: string)
    requires StartsWithSelect(p) && EndsWith(p, '1', ' ', '-', '-', '\r')
    ensures ModeAt(p, 12) == Line && PgModeAt(p, 12) == PgTop
  {
    AfterSelect(p);
    assert ModeAt(p, 8) == Top;
    assert ModeAt(p, 9) == Top;
    assert ModeAt(p, 10) == Line;
    assert ModeAt(p, 11) == Line;
    assert PgModeAt(p, 8) == PgTop;
    assert PgModeAt(p, 9) == PgTop;
    assert PgModeAt(p, 10) == PgLine;
    assert PgModeAt(p, 11) == PgLine;
  }

  predicate IsContinuedText(p: string) {
    && |p| == 17 && StartsWithSelect(p) && p[7] == 'E' && p[8] == '\'' && p[9] == 'a' && p[10] == '\''
    && p[11] == '\n' && p[12] == '\'' && p[13] == 'b' && p[14] == '\\' && p[15] == '\'' && p[16] == '\''
  }

  /** An escaped quote in the continuation of a string with backslash escapes. */
  lemma ContinuedScannerMode(p: string)
    requires IsContinuedText(p)
    ensures ModeAt(p, 17) == Quoted('\'')
  {
    AfterSelect(p);
    assert ModeAt(p, 8) == Top;
    assert ModeAt(p, 9) == Quoted('\'');
    assert ModeAt(p, 10) == Quoted('\'');
    assert ModeAt(p, 11) == Top;
    assert ModeAt(p, 12) == Top;
    assert ModeAt(p, 13) == Quoted('\'');
    assert ModeAt(p, 14) == Quoted('\'');
    assert ModeAt(p, 15) == Quoted('\'');
    assert ModeAt(p, 16) == QuotedSkip('\'');
  }

  lemma ContinuedPgMode(p: string)
    requires IsContinuedText(p)
    ensures PgModeAt(p, 17) == Gap(false)
  {
    AfterSelect(p);
    assert PgModeAt(p, 8) == Skip(1, Escapes, false);
    assert PgModeAt(p, 9) == In(Escapes);
    assert PgModeAt(p, 10) == In(Escapes);
    assert PgModeAt(p, 11) == Gap(false);
    assert PgModeAt(p, 12) == Gap(true);
    assert PgModeAt(p, 13) == In(Escapes);
    assert PgModeAt(p, 14) == In(Escapes);
    assert PgModeAt(p, 15) == Skip(1, Escapes, false);
    assert PgModeAt(p, 16) == In(Escapes);
  }

  /** Each of the constructs can put the scanner out of step. */
  lemma FourWaysOutOfStep(p: string)
    requires StartsWithSelect(p) && ';' !in p
    requires EndsWith(p, '$', '$', '\'', '$', '$') || EndsWith(p, 'E', '\'', '\\', '\'', '\'')
             || EndsWith(p, '1', ' ', '-', '-', '\r') || IsContinuedText(p)
    ensures OutOfStep(p)
  {
    SelectIsSingle(p);
    if IsContinuedText(p) {
      ContinuedScannerMode(p);
      ContinuedPgMode(p);
    } else if p[7] == '$' {
      DollarQuoteModes(p);
    } else if p[7] == 'E' {
      EscapeModes(p);
    } else {
      CarriageReturnModes(p);
    }
  }

  lemma StatementContinues(p: string, more: string)
    requires more == "; SELECT 2"
    ensures Continues(p, p + more)
  {
    var q := p + more;
    forall k | |p| <= k < |q| ensures IsHarmless(q[k]) { assert q[k] == more[k - |p|]; }
  }

  /** So leaving these constructs out is not always on the safe side: after each of the four
      texts, a second statement is accepted. */
  lemma TwoStatementsCanBeAccepted(p: string, more: string)
    requires p in {"SELECT $$'$$", "SELECT E'\\''", "SELECT 1 --\r", "SELECT E'a'\n'b\\''"} && more == "; SELECT 2"
    ensures IsSingleQuery(p + more, Classes(p + more)) && !IsSingleQuery(p + more, PgClasses(p + more))
  {
    FourWaysOutOfStep(p);
    StatementContinues(p, more);
    OutOfStepMisses(p, p + more);
  }

  lemma OutOfStepMisses(p: string, q: string)
    requires OutOfStep(p) && Continues(p, q)
    ensures IsSingleQuery(q, Classes(q)) && !IsSingleQuery(q, PgClasses(q))
  {
    MissedExactly(p, q);
  }

  // ------------------------------------------------------------ what may surround it

  /** White space and further semicolons. */
  predicate IsFiller(c: char) {
    c == ' ' || c == '\t' || c == '\n' || c == '\r' || c == '\U{000B}' || c == '\U{000C}' || c == ';'
  }

  lemma {:induction false} FillerIsNoContent(p: string, q: string, k: nat)
    requires Prolongs(p, q) && ModeAt(p, |p|) == Top && |p| <= k <= |q|
    requires forall j :: |p| <= j < |q| ==> IsFiller(q[j])
    ensures ModeAt(q, k) == Top && (k < |q| ==> ClassAt(q, k) == Separator || ClassAt(q, k) == Space)
  {
    if k == |p| { SameModes(p, q, |p|); } else { FillerIsNoContent(p, q, k - 1); }
  }

  /** A semicolon at the end, with white space and more semicolons behind it, does not make a second statement. */
  lemma TrailingSemicolonsAreFine(p: string, q: string)
    requires Prolongs(p, q) && ModeAt(p, |p|) == Top && IsSingleQuery(p, Classes(p))
    requires forall j :: |p| <= j < |q| ==> IsFiller(q[j])
    ensures IsSingleQuery(q, Classes(q))
  {
    var h := ScannerHead(p);
    SameWord(p, q, h);
    forall j | 0 <= j <= h ensures Classes(q)[j] == Classes(p)[j] { SameClass(p, q, j); }
    SingleQueryAt(p, Classes(p), h);
    SingleQueryAt(q, Classes(q), h);
    if SeparatorThenContent(Classes(q), 0) {
      var i, j :| 0 <= i < j < |q| && Classes(q)[i] == Separator && Classes(q)[j] == Content;
      if j >= |p| { FillerIsNoContent(p, q, j); }
      SameClass(p, q, i);
      SameClass(p, q, j);
      SeparatorPair(Classes(p), i, j);
    }
  }

  predicate IsLeading(c: char) { c == ' ' || c == '\t' || c == '\n' || c == '\r' }

  lemma {:induction false} LeadingIsSpace(t: string, n: nat, k: nat)
    requires k <= n <= |t| && forall j :: 0 <= j < n ==> IsLeading(t[j])
    ensures ModeAt(t, k) == Top && (k < n ==> ClassAt(t, k) == Space && IsBlank(t[k]))
  {
    if k > 0 { LeadingIsSpace(t, n, k - 1); }
  }

  /** Blanks in front of a query word change nothing. */
  lemma LeadingBlanksAreFine(t: string, n: nat, q: string)
    requires n < |t| && q == t[n..] && forall j :: 0 <= j < n ==> IsLeading(t[j])
    requires ClassAt(q, 0) == Content && IsQueryWord(WordAt(q, 0))
    ensures IsSingleQuery(t, Classes(t)) <==> IsSingleQuery(q, Classes(q))
  {
    var cs, ds := Classes(t), Classes(q);
    forall j | 0 <= j < n ensures cs[j] == Space && IsBlank(t[j]) { LeadingIsSpace(t, n, j); }
    ShiftedClasses(t, n, q, cs, ds);
    SameVerdict(t, n, q, cs, ds);
  }

  lemma ShiftedClasses(t: string, n: nat, q: string, cs: seq<Class>, ds: seq<Class>)
    requires n < |t| && q == t[n..] && cs == Classes(t) && ds == Classes(q)
    requires forall j :: 0 <= j < n ==> IsLeading(t[j])
    ensures forall j :: 0 <= j < |q| ==> cs[n + j] == ds[j]
  {
    LeadingIsSpace(t, n, n);
    forall j | 0 <= j < |q| ensures cs[n + j] == ds[j] { SuffixClass(t, n, j); }
  }

  lemma SameVerdict(t: string, n: nat, q: string, cs: seq<Class>, ds: seq<Class>)
    requires n < |t| && q == t[n..] && |cs| == |t| && |ds| == |q|
    requires forall j :: 0 <= j < n ==> cs[j] == Space && IsBlank(t[j])
    requires forall j :: 0 <= j < |q| ==> cs[n + j] == ds[j]
    requires ds[0] == Content && IsQueryWord(WordAt(q, 0))
    ensures IsSingleQuery(t, cs) <==> IsSingleQuery(q, ds)
  {
    WordInSuffix(t, n, 0);
    assert cs[n + 0] == ds[0];
    SingleQueryAt(q, ds, 0);
    SingleQueryAt(t, cs, n);
    SamePairs(cs, ds, n);
  }

  lemma SamePairs(cs: seq<Class>, ds: seq<Class>, n: nat)
    requires |cs| == n + |ds| && (forall j :: 0 <= j < n ==> cs[j] == Space)
    requires forall j :: 0 <= j < |ds| ==> cs[n + j] == ds[j]
    ensures SeparatorThenContent(cs, 0) <==> SeparatorThenContent(ds, 0)
  {
    if i, j :| 0 <= i < j < |cs| && cs[i] == Separator && cs[j] == Content {
      assert cs[n + (i - n)] == ds[i - n] && cs[n + (j - n)] == ds[j - n];
    }
    if i, j :| 0 <= i < j < |ds| && ds[i] == Separator && ds[j] == Content {
      assert cs[n + i] == ds[i] && cs[n + j] == ds[j];
    }
  }

  /** Query words count in any case. */
  lemma AnyCaseCounts()
    ensures IsQueryWord("select") && IsQueryWord("SELECT") && IsQueryWord("With") && !IsQueryWord("update")
  {
    assert Upper("select") == "SELECT" && Upper("With") == "WITH";
    assert |Upper("update")| == 6 && Upper("update")[0] == 'U';
  }
}
