/** Scoping every PromQL selector of a dashboard to the chosen scrape instance.

    The rewriter scans a text with the pattern NAME({...})?, where the brace
    block may not hold further braces, and rewrites the matches whose name has
    one of the given prefixes.  Its documentation promises that running it twice
    does not inject twice. */
module PromInject {

  const MATCHER := "instance=~\"$instance\""
  const EXACT_MATCHER := "instance=\"$instance\""

  predicate IsNameStart(c: char) { 'a' <= c <= 'z' || 'A' <= c <= 'Z' || c == '_' }

  predicate IsNameChar(c: char) { IsNameStart(c) || '0' <= c <= '9' }

  predicate IsBrace(c: char) { c == '{' || c == '}' }

  /** Python's str.isspace. */
  predicate IsSpace(c: char) {
    || '\t' <= c <= '\r' || '\U{1C}' <= c <= ' '
    || c == '\U{85}' || c == '\U{A0}' || c == '\U{1680}' || '\U{2000}' <= c <= '\U{200A}'
    || c == '\U{2028}' || c == '\U{2029}' || c == '\U{202F}' || c == '\U{205F}' || c == '\U{3000}'
  }

  function Strip(s: string): (r: string)
    ensures forall i :: 0 <= i < |r| ==> r[i] in s
    decreases |s|
  {
    if s == "" then ""
    else if IsSpace(s[0]) then Strip(s[1..])
    else if IsSpace(s[|s| - 1]) then Strip(s[..|s| - 1])
    else s
  }

  predicate Contains(s: string, part: string) {
    part <= s || (s != "" && Contains(s[1..], part))
  }

  // ------------------------------------------------------------------ scanning

  function NameLen(s: string): (n: nat)
    ensures n <= |s|
  {
    if s == "" || !IsNameChar(s[0]) then 0 else 1 + NameLen(s[1..])
  }

  predicate IsName(name: string) {
    forall i :: 0 <= i < |name| ==> IsNameChar(name[i])
  }

  lemma {:induction false} NameLenTakesName(s: string)
    ensures IsName(s[..NameLen(s)])
    ensures NameLen(s) < |s| ==> !IsNameChar(s[NameLen(s)])
  {
    if s != "" && IsNameChar(s[0]) {
      NameLenTakesName(s[1..]);
      assert s[..NameLen(s)] == [s[0]] + s[1..][..NameLen(s[1..])];
    }
  }

  /** How far the first closing brace is, if no opening brace comes before it; -1 otherwise. */
  function CloseAt(s: string): (k: int)
    ensures -1 <= k < |s|
  {
    if s == "" || s[0] == '{' then -1
    else if s[0] == '}' then 0
    else if CloseAt(s[1..]) == -1 then -1 else 1 + CloseAt(s[1..])
  }

  lemma {:induction false} CloseAtFindsBrace(s: string)
    requires CloseAt(s) >= 0
    ensures s[CloseAt(s)] == '}' && forall i :: 0 <= i < CloseAt(s) ==> !IsBrace(s[i])
  {
    if s[0] != '}' {
      CloseAtFindsBrace(s[1..]);
      assert forall i :: 1 <= i < |s| ==> s[i] == s[1..][i - 1];
    }
  }

  /** The length of the brace block at the start of `s`, 0 when there is none. */
  function BlockLen(s: string): (n: nat)
    ensures n <= |s|
  {
    if s == "" || s[0] != '{' || CloseAt(s[1..]) == -1 then 0 else CloseAt(s[1..]) + 2
  }

  lemma BlockLenTakesBlock(s: string)
    ensures BlockLen(s) == 0 || IsBlock(s[..BlockLen(s)])
  {
    if BlockLen(s) != 0 {
      CloseAtFindsBrace(s[1..]);
      assert forall i :: 1 <= i < |s| ==> s[i] == s[1..][i - 1];
    }
  }

  /** One match of the pattern at the start of a text. */
  datatype Match = Match(name: string, block: string, rest: string)

  function FirstMatch(s: string): Match {
    var n := NameLen(s);
    var b := BlockLen(s[n..]);
    Match(s[..n], s[n..][..b], s[n..][b..])
  }

  lemma FirstMatchSplits(s: string)
    requires s != "" && IsNameStart(s[0])
    ensures FirstMatch(s).name != "" && FirstMatch(s).name[0] == s[0] && IsName(FirstMatch(s).name)
    ensures s == FirstMatch(s).name + FirstMatch(s).block + FirstMatch(s).rest
    ensures FirstMatch(s).block == "" || IsBlock(FirstMatch(s).block)
    ensures FirstMatch(s).block == "" ==> StandsApart(FirstMatch(s).rest)
  {
    var n := NameLen(s);
    NameLenTakesName(s);
    BlockSplits(s[n..]);
    Reassemble(s, n, BlockLen(s[n..]));
  }

  lemma Reassemble(s: string, n: nat, b: nat)
    requires n + b <= |s|
    ensures s == s[..n] + s[n..][..b] + s[n..][b..]
  {}

  /** A tail that neither extends a name before it nor gives it a block. */
  predicate StandsApart(tail: string) {
    (tail == "" || !IsNameChar(tail[0])) && BlockLen(tail) == 0
  }

  lemma BlockSplits(tail: string)
    ensures var b := BlockLen(tail);
      && tail == tail[..b] + tail[b..]
      && (b == 0 ==> tail[..b] == "" && tail[b..] == tail)
      && (b != 0 ==> IsBlock(tail[..b]))
  {
    BlockLenTakesBlock(tail);
  }

  predicate IsBlock(b: string) {
    && |b| >= 2 && b[0] == '{' && b[|b| - 1] == '}'
    && forall i :: 1 <= i < |b| - 1 ==> !IsBrace(b[i])
  }

  // ----------------------------------------------------------------- rewriting

  predicate Targeted(name: string, prefixes: seq<string>) {
    exists p :: p in prefixes && p <= name
  }

  /** The label matchers of a block without the surrounding white space; none for a bare name. */
  function Inner(block: string): string {
    if |block| < 2 then "" else Strip(block[1..|block| - 1])
  }

  predicate Scoped(block: string) {
    Contains(Inner(block), MATCHER) || Contains(Inner(block), EXACT_MATCHER)
  }

  function WithMatcher(inner: string): string {
    if inner == "" then MATCHER else MATCHER + "," + inner
  }

  function NewBlock(name: string, block: string, prefixes: seq<string>): string {
    if !Targeted(name, prefixes) || Scoped(block) then block
    else "{" + WithMatcher(Inner(block)) + "}"
  }

  function InjectInstance(s: string, prefixes: seq<string>): string
    decreases |s|
  {
    if s == "" then ""
    else if !IsNameStart(s[0]) then [s[0]] + InjectInstance(s[1..], prefixes)
    else
      var m := FirstMatch(s);
      m.name + NewBlock(m.name, m.block, prefixes) + InjectInstance(m.rest, prefixes)
  }

  // ---------------------------------------------------------- the token reading

  /** A text is a sequence of selectors and of characters outside selectors. */
  datatype Token = Gap(c: char) | Selector(name: string, block: string)

  function Parse(s: string): seq<Token>
    decreases |s|
  {
    if s == "" then []
    else if !IsNameStart(s[0]) then [Gap(s[0])] + Parse(s[1..])
    else
      var m := FirstMatch(s);
      [Selector(m.name, m.block)] + Parse(m.rest)
  }

  function Text(t: Token): string {
    if t.Gap? then [t.c] else t.name + t.block
  }

  function Render(ts: seq<Token>): string {
    if ts == [] then "" else Text(ts[0]) + Render(ts[1..])
  }

  lemma RenderCons(t: Token, ts: seq<Token>)
    ensures Render([t] + ts) == Text(t) + Render(ts)
  {
    assert ([t] + ts)[1..] == ts;
  }

  /** Only the block of a selector with a targeted name changes. */
  function Rewritten(t: Token, prefixes: seq<string>): Token {
    if t.Gap? then t else t.(block := NewBlock(t.name, t.block, prefixes))
  }

  function RewrittenAll(ts: seq<Token>, prefixes: seq<string>): seq<Token> {
    if ts == [] then [] else [Rewritten(ts[0], prefixes)] + RewrittenAll(ts[1..], prefixes)
  }

  lemma {:induction false} RewrittenAt(ts: seq<Token>, prefixes: seq<string>)
    ensures |RewrittenAll(ts, prefixes)| == |ts|
    ensures forall i :: 0 <= i < |ts| ==> RewrittenAll(ts, prefixes)[i] == Rewritten(ts[i], prefixes)
  {
    if ts != [] { RewrittenAt(ts[1..], prefixes); }
  }

  /** Reading a text into tokens loses nothing. */
  lemma {:induction false} ParseRoundTrip(s: string)
    ensures Render(Parse(s)) == s
    decreases |s|
  {
    if s != "" {
      if !IsNameStart(s[0]) {
        ParseRoundTrip(s[1..]);
        RenderCons(Gap(s[0]), Parse(s[1..]));
      } else {
        var m := FirstMatch(s);
        FirstMatchSplits(s);
        ParseRoundTrip(m.rest);
        RenderCons(Selector(m.name, m.block), Parse(m.rest));
      }
    }
  }

  // --------------------------------------------------------------- main results

  lemma MatcherText()
    ensures MATCHER != "" && !IsSpace(MATCHER[0]) && !IsSpace(MATCHER[|MATCHER| - 1])
    ensures forall i :: 0 <= i < |MATCHER| ==> !IsBrace(MATCHER[i])
  {}

  lemma ScopedBlock(content: string)
    requires MATCHER <= content && !IsSpace(content[|content| - 1])
    requires forall i :: 0 <= i < |content| ==> !IsBrace(content[i])
    ensures IsBlock("{" + content + "}") && Scoped("{" + content + "}")
  {
    MatcherText();
    var block := "{" + content + "}";
    assert block[1..|block| - 1] == content;
    assert content[0] == MATCHER[0];
    assert Strip(content) == content;
  }

  lemma WithMatcherText(inner: string)
    requires inner != "" ==> !IsSpace(inner[|inner| - 1])
    requires forall i :: 0 <= i < |inner| ==> !IsBrace(inner[i])
    ensures MATCHER <= WithMatcher(inner) && !IsSpace(WithMatcher(inner)[|WithMatcher(inner)| - 1])
    ensures forall i :: 0 <= i < |WithMatcher(inner)| ==> !IsBrace(WithMatcher(inner)[i])
  {
    MatcherText();
  }

  lemma InnerText(block: string)
    requires block == "" || IsBlock(block)
    ensures Inner(block) != "" ==> !IsSpace(Inner(block)[|Inner(block)| - 1])
    ensures forall i :: 0 <= i < |Inner(block)| ==> !IsBrace(Inner(block)[i])
  {
    if block != "" {
      var content := block[1..|block| - 1];
      StripEnds(content);
      forall i | 0 <= i < |Inner(block)| ensures !IsBrace(Inner(block)[i]) {
        assert Inner(block)[i] in content;
      }
    }
  }

  lemma {:induction false} StripEnds(s: string)
    ensures Strip(s) != "" ==> !IsSpace(Strip(s)[|Strip(s)| - 1])
    decreases |s|
  {
    if s != "" {
      if IsSpace(s[0]) { StripEnds(s[1..]); }
      else if IsSpace(s[|s| - 1]) { StripEnds(s[..|s| - 1]); }
    }
  }

  /** A rewritten block is a block again, and rewriting it once more does nothing. */
  lemma NewBlockSettles(name: string, block: string, prefixes: seq<string>)
    requires block == "" || IsBlock(block)
    ensures var b := NewBlock(name, block, prefixes);
            && (b == "" || IsBlock(b))
            && (Targeted(name, prefixes) ==> IsBlock(b) && Scoped(b))
            && (b == "" ==> block == "")
            && NewBlock(name, b, prefixes) == b
  {
    var inner := Inner(block);
    InnerText(block);
    WithMatcherText(inner);
    ScopedBlock(WithMatcher(inner));
    assert Scoped(block) ==> block != "" by { NoMatcherInNothing(); }
  }

  lemma NoMatcherInNothing()
    ensures !Scoped("")
  {}

  lemma {:induction false} NameLenOf(name: string, tail: string)
    requires IsName(name)
    requires tail == "" || !IsNameChar(tail[0])
    ensures NameLen(name + tail) == |name|
    decreases |name|
  {
    if name == "" {
      assert name + tail == tail;
    } else {
      assert (name + tail)[1..] == name[1..] + tail;
      NameLenOf(name[1..], tail);
    }
  }

  lemma {:induction false} CloseAtOf(inner: string, tail: string)
    requires forall i :: 0 <= i < |inner| ==> !IsBrace(inner[i])
    ensures CloseAt(inner + "}" + tail) == |inner|
    decreases |inner|
  {
    if inner != "" {
      assert (inner + "}" + tail)[1..] == inner[1..] + "}" + tail;
      CloseAtOf(inner[1..], tail);
    }
  }

  lemma BlockLenOf(block: string, tail: string)
    requires IsBlock(block)
    ensures BlockLen(block + tail) == |block|
  {
    var inner := block[1..|block| - 1];
    assert (block + tail)[1..] == inner + "}" + tail;
    CloseAtOf(inner, tail);
  }

  lemma {:induction false} CloseAtSkipsName(name: string, tail: string)
    requires IsName(name)
    ensures CloseAt(name + tail) == -1 <==> CloseAt(tail) == -1
    decreases |name|
  {
    if name == "" {
      assert name + tail == tail;
    } else {
      assert (name + tail)[1..] == name[1..] + tail;
      CloseAtSkipsName(name[1..], tail);
    }
  }

  /** The rewriter never closes a brace that the text left open. */
  lemma {:induction false} InjectKeepsOpenBrace(s: string, prefixes: seq<string>)
    requires CloseAt(s) == -1
    ensures CloseAt(InjectInstance(s, prefixes)) == -1
    decreases |s|
  {
    if s != "" {
      if !IsNameStart(s[0]) {
        if s[0] != '{' { InjectKeepsOpenBrace(s[1..], prefixes); }
        assert InjectInstance(s, prefixes)[1..] == InjectInstance(s[1..], prefixes);
      } else {
        var m := FirstMatch(s);
        FirstMatchSplits(s);
        NewBlockSettles(m.name, m.block, prefixes);
        var block, tail := NewBlock(m.name, m.block, prefixes), InjectInstance(m.rest, prefixes);
        if block == "" {
          SelectorKeepsClose(m.name, "", m.rest);
          InjectKeepsOpenBrace(m.rest, prefixes);
        }
        SelectorKeepsClose(m.name, block, tail);
      }
    }
  }

  lemma SelectorKeepsClose(name: string, block: string, tail: string)
    requires IsName(name) && (block == "" || IsBlock(block))
    ensures CloseAt(name + block + tail) == -1 <==> block != "" || CloseAt(tail) == -1
  {
    CloseAtSkipsName(name, block + tail);
    assert name + block + tail == name + (block + tail);
    if block == "" { assert block + tail == tail; } else { assert (block + tail)[0] == '{'; }
  }

  /** After a bare name that stays bare, the rewritten tail still starts no block and no name. */
  lemma TailStaysSeparate(s: string, prefixes: seq<string>)
    requires StandsApart(s)
    ensures StandsApart(InjectInstance(s, prefixes))
  {
    if s != "" {
      var t := InjectInstance(s[1..], prefixes);
      assert ([s[0]] + t)[1..] == t;
      if s[0] == '{' { InjectKeepsOpenBrace(s[1..], prefixes); }
    }
  }

  lemma ParseSelector(name: string, block: string, tail: string)
    requires name != "" && IsNameStart(name[0]) && IsName(name)
    requires block == "" || IsBlock(block)
    requires block == "" ==> StandsApart(tail)
    ensures Parse(name + block + tail) == [Selector(name, block)] + Parse(tail)
  {
    var after := block + tail;
    assert name + block + tail == name + after;
    if block != "" { BlockLenOf(block, tail); } else { assert after == tail; }
    MatchOf(name, after);
    assert after[..|block|] == block && after[|block|..] == tail;
    assert (name + after)[0] == name[0];
  }

  lemma MatchOf(name: string, after: string)
    requires IsName(name) && (after == "" || !IsNameChar(after[0]))
    ensures FirstMatch(name + after) == Match(name, after[..BlockLen(after)], after[BlockLen(after)..])
  {
    NameLenOf(name, after);
    assert (name + after)[..|name|] == name && (name + after)[|name|..] == after;
  }

  /** The rewritten text reads back as the same tokens, with only the blocks of
      targeted selectors replaced: everything outside them is unchanged, and no
      token is split, merged or lost, with balanced braces or without. */
  lemma {:induction false} InjectActsOnTokens(s: string, prefixes: seq<string>)
    ensures Parse(InjectInstance(s, prefixes)) == RewrittenAll(Parse(s), prefixes)
    decreases |s|
  {
    if s != "" {
      if !IsNameStart(s[0]) {
        var t := InjectInstance(s[1..], prefixes);
        InjectActsOnTokens(s[1..], prefixes);
        assert ([s[0]] + t)[1..] == t;
        RewrittenCons(Gap(s[0]), Parse(s[1..]), prefixes);
      } else {
        var m := FirstMatch(s);
        FirstMatchSplits(s);
        NewBlockSettles(m.name, m.block, prefixes);
        InjectActsOnTokens(m.rest, prefixes);
        if NewBlock(m.name, m.block, prefixes) == "" { TailStaysSeparate(m.rest, prefixes); }
        ParseSelector(m.name, NewBlock(m.name, m.block, prefixes), InjectInstance(m.rest, prefixes));
        RewrittenCons(Selector(m.name, m.block), Parse(m.rest), prefixes);
      }
    }
  }

  lemma RewrittenCons(t: Token, ts: seq<Token>, prefixes: seq<string>)
    ensures RewrittenAll([t] + ts, prefixes) == [Rewritten(t, prefixes)] + RewrittenAll(ts, prefixes)
  {
    assert ([t] + ts)[1..] == ts;
  }

  lemma {:induction false} ParsedBlocks(s: string)
    ensures forall t :: t in Parse(s) && t.Selector? ==> t.block == "" || IsBlock(t.block)
    decreases |s|
  {
    if s != "" {
      if !IsNameStart(s[0]) { ParsedBlocks(s[1..]); }
      else { FirstMatchSplits(s); ParsedBlocks(FirstMatch(s).rest); }
    }
  }

  /** Selectors are as long as they can be: a character outside them cannot begin a name, names are names, and a
      selector without a block is followed by the end or by a character that no name could go on with. */
  lemma {:induction false} TokensAreMaximal(s: string, k: nat)
    requires k < |Parse(s)|
    ensures var ts := Parse(s);
            && (ts[k].Gap? ==> !IsNameStart(ts[k].c))
            && (ts[k].Selector? ==> ts[k].name != "" && IsNameStart(ts[k].name[0]) && IsName(ts[k].name))
            && (ts[k].Selector? && ts[k].block == "" && k + 1 < |ts| ==> ts[k + 1].Gap? && !IsNameChar(ts[k + 1].c))
    decreases |s|
  {
    if !IsNameStart(s[0]) {
      if k > 0 { TokensAreMaximal(s[1..], k - 1); }
    } else {
      var m := FirstMatch(s);
      FirstMatchSplits(s);
      if k > 0 { TokensAreMaximal(m.rest, k - 1); }
    }
  }

  // ------------------------------------------------------- what happens to a block

  /** Names are made of ASCII letters, digits and underscores and do not begin with a digit. */
  lemma NameAlphabet(c: char)
    ensures IsNameStart(c) <==> 65 <= c as int <= 90 || 97 <= c as int <= 122 || c as int == 95
    ensures IsNameChar(c) <==> IsNameStart(c) || 48 <= c as int <= 57
  {}

  /** White space by code point, as the Unicode database lists it for Python. */
  lemma SpaceCodePoints(c: char)
    ensures IsSpace(c) <==>
            var n := c as int;
            || 9 <= n <= 13 || 28 <= n <= 32 || n in {133, 160, 5760, 8232, 8233, 8239, 8287, 12288}
            || 8192 <= n <= 8202
  {}

  ghost predicate AllSpace(s: string) { forall i :: 0 <= i < |s| ==> IsSpace(s[i]) }

  lemma OneMoreLeft(c: char, left: string, mid: string, right: string)
    ensures [c] + (left + mid + right) == ([c] + left) + mid + right
    ensures IsSpace(c) && AllSpace(left) ==> AllSpace([c] + left)
  {}

  lemma OneMoreRight(c: char, left: string, mid: string, right: string)
    ensures (left + mid + right) + [c] == left + mid + (right + [c])
    ensures IsSpace(c) && AllSpace(right) ==> AllSpace(right + [c])
  {}

  /** Stripping takes away white space at both ends, all of it and nothing else. */
  lemma {:induction false} StripExactly(s: string) returns (left: string, right: string)
    ensures s == left + Strip(s) + right && AllSpace(left) && AllSpace(right)
    decreases |s|
  {
    if s != "" && IsSpace(s[0]) {
      left, right := StripExactly(s[1..]);
      OneMoreLeft(s[0], left, Strip(s), right);
      assert s == [s[0]] + s[1..];
      left := [s[0]] + left;
    } else if s != "" && IsSpace(s[|s| - 1]) {
      left, right := StripExactly(s[..|s| - 1]);
      OneMoreRight(s[|s| - 1], left, Strip(s), right);
      assert s == s[..|s| - 1] + [s[|s| - 1]];
      right := right + [s[|s| - 1]];
    } else {
      left, right := "", "";
    }
  }

  lemma {:induction false} StrippedEnds(s: string)
    ensures Strip(s) != "" ==> !IsSpace(Strip(s)[0]) && !IsSpace(Strip(s)[|Strip(s)| - 1])
    decreases |s|
  {
    if s != "" {
      if IsSpace(s[0]) { StrippedEnds(s[1..]); }
      else if IsSpace(s[|s| - 1]) { StrippedEnds(s[..|s| - 1]); }
    }
  }

  ghost predicate Trimmed(labels: string) {
    labels != "" ==> !IsSpace(labels[0]) && !IsSpace(labels[|labels| - 1])
  }

  ghost predicate Padded(block: string, left: string, labels: string, right: string) {
    block == "{" + (left + labels + right) + "}" && AllSpace(left) && AllSpace(right)
  }

  /** The label matchers of a block, without the braces and the white space around them. */
  ghost predicate HasLabels(block: string, labels: string) {
    if block == "" then labels == ""
    else Trimmed(labels) && exists left, right :: Padded(block, left, labels, right)
  }

  lemma InnerAreTheLabels(block: string)
    requires block == "" || IsBlock(block)
    ensures HasLabels(block, Inner(block))
  {
    if block != "" {
      var content := block[1..|block| - 1];
      assert block == "{" + content + "}";
      StrippedEnds(content);
      var left, right := StripExactly(content);
      assert Padded(block, left, Inner(block), right);
    }
  }

  ghost predicate StartsWithOneOf(name: string, prefixes: seq<string>) {
    exists i :: 0 <= i < |prefixes| && |prefixes[i]| <= |name| && name[..|prefixes[i]|] == prefixes[i]
  }

  ghost predicate OccursAt(part: string, s: string, i: nat) {
    i + |part| <= |s| && s[i..i + |part|] == part
  }

  ghost predicate Occurs(part: string, s: string) {
    exists i: nat :: OccursAt(part, s, i)
  }

  lemma ShiftedOccurrence(part: string, s: string, i: nat)
    requires s != ""
    ensures OccursAt(part, s[1..], i) <==> OccursAt(part, s, i + 1)
  {
    if i + |part| <= |s| - 1 { assert s[1..][i..i + |part|] == s[i + 1..i + 1 + |part|]; }
  }

  lemma {:induction false} ContainsExactly(s: string, part: string)
    ensures Contains(s, part) <==> Occurs(part, s)
  {
    assert part <= s <==> OccursAt(part, s, 0);
    if s != "" {
      ContainsExactly(s[1..], part);
      if i: nat :| OccursAt(part, s[1..], i) {
        ShiftedOccurrence(part, s, i);
        assert OccursAt(part, s, i + 1);
      }
      if i: nat :| OccursAt(part, s, i) {
        if i > 0 { ShiftedOccurrence(part, s, i - 1); }
      }
    } else {
      if i: nat :| OccursAt(part, s, i) { assert i == 0; }
    }
  }

  /** A selector stays as it is unless its name has one of the prefixes and its labels lack the
      instance matcher in both spellings; then the matcher is put before the labels, which all stay. */
  ghost predicate BlockLaw(name: string, block: string, prefixes: seq<string>, labels: string, rewritten: string) {
    if !StartsWithOneOf(name, prefixes) || Occurs("instance=~\"$instance\"", labels)
       || Occurs("instance=\"$instance\"", labels) then rewritten == block
    else if labels == "" then rewritten == "{" + "instance=~\"$instance\"" + "}"
    else rewritten == "{" + ("instance=~\"$instance\"" + "," + labels) + "}"
  }

  lemma NewBlockLaw(name: string, block: string, prefixes: seq<string>)
    requires block == "" || IsBlock(block)
    ensures HasLabels(block, Inner(block))
    ensures BlockLaw(name, block, prefixes, Inner(block), NewBlock(name, block, prefixes))
  {
    InnerAreTheLabels(block);
    TargetedExactly(name, prefixes);
    ContainsExactly(Inner(block), MATCHER);
    ContainsExactly(Inner(block), EXACT_MATCHER);
  }

  lemma TargetedExactly(name: string, prefixes: seq<string>)
    ensures Targeted(name, prefixes) <==> StartsWithOneOf(name, prefixes)
  {
    if Targeted(name, prefixes) {
      var p :| p in prefixes && p <= name;
      var i :| 0 <= i < |prefixes| && prefixes[i] == p;
      assert name[..|prefixes[i]|] == prefixes[i];
    }
    if StartsWithOneOf(name, prefixes) {
      var i :| 0 <= i < |prefixes| && |prefixes[i]| <= |name| && name[..|prefixes[i]|] == prefixes[i];
      assert prefixes[i] in prefixes && prefixes[i] <= name;
    }
  }

  /** Token by token: characters outside selectors and all names stay, and every block follows the law. */
  lemma EveryTokenFollowsTheLaw(s: string, prefixes: seq<string>, k: nat)
    requires k < |Parse(s)|
    ensures var before, after := Parse(s), Parse(InjectInstance(s, prefixes));
            && |after| == |before|
            && if before[k].Gap? then after[k] == before[k]
               else after[k].Selector? && after[k].name == before[k].name
                    && exists labels :: HasLabels(before[k].block, labels)
                         && BlockLaw(before[k].name, before[k].block, prefixes, labels, after[k].block)
  {
    InjectActsOnTokens(s, prefixes);
    RewrittenAt(Parse(s), prefixes);
    ParsedBlocks(s);
    var t := Parse(s)[k];
    assert t in Parse(s);
    if t.Selector? { NewBlockLaw(t.name, t.block, prefixes); }
  }

  /** Every targeted selector of the output carries the instance matcher. */
  lemma TargetsAreScoped(s: string, prefixes: seq<string>)
    ensures forall t :: t in Parse(InjectInstance(s, prefixes)) && t.Selector? && Targeted(t.name, prefixes)
              ==> Scoped(t.block)
  {
    var ts := Parse(s);
    InjectActsOnTokens(s, prefixes);
    RewrittenAt(ts, prefixes);
    ParsedBlocks(s);
    forall i | 0 <= i < |ts| && ts[i].Selector? && Targeted(ts[i].name, prefixes)
      ensures Scoped(Rewritten(ts[i], prefixes).block)
    {
      assert ts[i] in ts;
      NewBlockSettles(ts[i].name, ts[i].block, prefixes);
    }
  }

  /** A text is left alone exactly when its targeted selectors are all scoped already. */
  lemma UnchangedExactlyWhenScoped(s: string, prefixes: seq<string>)
    ensures InjectInstance(s, prefixes) == s <==>
            forall t :: t in Parse(s) && t.Selector? && Targeted(t.name, prefixes) ==> Scoped(t.block)
  {
    var ts := Parse(s);
    InjectActsOnTokens(s, prefixes);
    RewrittenAt(ts, prefixes);
    if InjectInstance(s, prefixes) == s {
      TargetsAreScoped(s, prefixes);
    }
    if forall t :: t in ts && t.Selector? && Targeted(t.name, prefixes) ==> Scoped(t.block) {
      forall i | 0 <= i < |ts| ensures Rewritten(ts[i], prefixes) == ts[i] {
        assert ts[i] in ts;
      }
      assert RewrittenAll(ts, prefixes) == ts;
      ParseRoundTrip(s);
      ParseRoundTrip(InjectInstance(s, prefixes));
    }
  }

  /** Running the rewriter twice equals running it once, for every text and every prefix list. */
  lemma InjectIdempotent(s: string, prefixes: seq<string>)
    ensures InjectInstance(InjectInstance(s, prefixes), prefixes) == InjectInstance(s, prefixes)
  {
    TargetsAreScoped(s, prefixes);
    UnchangedExactlyWhenScoped(InjectInstance(s, prefixes), prefixes);
  }
}
