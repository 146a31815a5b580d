/** Splitting a classified SQL text into statements, whatever lexer classified it. */
module SqlStatements {

  /** What a character is to a lexer. */
  datatype Class = Space | Comment | Separator | Content

  /** The statements of a text: for each one that has content, the positions of its content characters. */
  function SplitFrom(cs: seq<Class>, i: nat, current: seq<nat>): seq<seq<nat>>
    requires i <= |cs|
    decreases |cs| - i
  {
    if i == |cs| then Flush(current)
    else match cs[i]
      case Content => SplitFrom(cs, i + 1, current + [i])
      case Separator => Flush(current) + SplitFrom(cs, i + 1, [])
      case _ => SplitFrom(cs, i + 1, current)
  }

  function Flush(current: seq<nat>): seq<seq<nat>> {
    if current == [] then [] else [current]
  }

  function Statements(cs: seq<Class>): seq<seq<nat>> {
    SplitFrom(cs, 0, [])
  }

  predicate IsIdentChar(c: char) {
    'A' <= c <= 'Z' || 'a' <= c <= 'z' || '0' <= c <= '9' || c == '_'
  }

  /** The longest run of identifier characters that starts at `k`. */
  function WordAt(q: string, k: nat): (w: string)
    requires k <= |q|
    ensures k + |w| <= |q| && w == q[k..k + |w|]
    ensures forall i :: 0 <= i < |w| ==> IsIdentChar(w[i])
    ensures k + |w| < |q| ==> !IsIdentChar(q[k + |w|])
    decreases |q| - k
  {
    if k < |q| && IsIdentChar(q[k]) then [q[k]] + WordAt(q, k + 1) else []
  }

  function ToUpper(c: char): char {
    if 'a' <= c <= 'z' then (c as int - 32) as char else c
  }

  function Upper(s: string): (r: string)
    ensures |r| == |s|
  {
    seq(|s|, i requires 0 <= i < |s| => ToUpper(s[i]))
  }

  predicate IsQueryWord(w: string) {
    Upper(w) == "SELECT" || Upper(w) == "WITH"
  }

  /** The narrower set of blanks that the head scanner trims. */
  predicate IsBlank(c: char) {
    c == ' ' || c == '\t' || c == '\r' || c == '\n'
  }

  ghost predicate SeparatorThenContent(cs: seq<Class>, from: nat) {
    exists i, j :: from <= i < j < |cs| && cs[i] == Separator && cs[j] == Content
  }

  /** What the allowlist promises, in terms of a lexer alone: exactly one statement has
      content, its first word is SELECT or WITH, and only comments and blanks stand before it. */
  ghost predicate IsSingleQuery(q: string, cs: seq<Class>)
    requires |cs| == |q|
  {
    && |Statements(cs)| == 1
    && Statements(cs)[0] != []
    && var h := Statements(cs)[0][0];
    && h < |q|
    && IsQueryWord(WordAt(q, h))
    && forall j :: 0 <= j < h ==> cs[j] == Comment || IsBlank(q[j])
  }

  lemma {:induction false} SkipTrivia(cs: seq<Class>, i: nat, h: nat)
    requires i <= h <= |cs|
    requires forall j :: i <= j < h ==> cs[j] == Comment || cs[j] == Space
    ensures SplitFrom(cs, i, []) == SplitFrom(cs, h, [])
    decreases h - i
  {
    if i < h { SkipTrivia(cs, i + 1, h); }
  }

  lemma {:induction false} SplitEmpty(cs: seq<Class>, i: nat)
    requires i <= |cs|
    ensures SplitFrom(cs, i, []) == [] <==> forall j :: i <= j < |cs| ==> cs[j] != Content
    decreases |cs| - i, 0
  {
    if i < |cs| {
      if cs[i] == Content {
        assert [] + [i] == [i];
        SplitOpen(cs, i + 1, [i]);
      } else {
        SplitEmpty(cs, i + 1);
      }
    }
  }

  lemma SeparatorStep(cs: seq<Class>, i: nat)
    requires i < |cs|
    ensures SeparatorThenContent(cs, i) <==>
            if cs[i] == Separator then exists j :: i + 1 <= j < |cs| && cs[j] == Content
            else SeparatorThenContent(cs, i + 1)
  {}

  lemma SplitAtSeparator(cs: seq<Class>, i: nat, current: seq<nat>)
    requires i < |cs| && current != [] && cs[i] == Separator
    ensures SplitFrom(cs, i, current) == [current] + SplitFrom(cs, i + 1, [])
    ensures |SplitFrom(cs, i, current)| == 1 <==> !SeparatorThenContent(cs, i)
    decreases |cs| - i, 0
  {
    SeparatorStep(cs, i);
    SplitEmpty(cs, i + 1);
  }

  /** With a statement under way, the split has one part exactly when no content follows a separator. */
  lemma {:induction false} SplitOpen(cs: seq<Class>, i: nat, current: seq<nat>)
    requires i <= |cs| && current != []
    ensures SplitFrom(cs, i, current) != []
    ensures current <= SplitFrom(cs, i, current)[0]
    ensures |SplitFrom(cs, i, current)| == 1 <==> !SeparatorThenContent(cs, i)
    decreases |cs| - i, 1
  {
    if i < |cs| {
      if cs[i] == Separator {
        SplitAtSeparator(cs, i, current);
      } else {
        SeparatorStep(cs, i);
        SplitOpen(cs, i + 1, if cs[i] == Content then current + [i] else current);
      }
    }
  }

  /** The first content position of a split is the first content character. */
  lemma {:induction false} SplitHead(cs: seq<Class>, i: nat)
    requires i <= |cs| && SplitFrom(cs, i, []) != []
    ensures SplitFrom(cs, i, [])[0] != []
    ensures var h := SplitFrom(cs, i, [])[0][0];
            i <= h < |cs| && cs[h] == Content && forall j :: i <= j < h ==> cs[j] != Content
    decreases |cs| - i
  {
    if i < |cs| {
      if cs[i] == Content {
        assert [] + [i] == [i];
        SplitOpen(cs, i + 1, [i]);
      } else {
        SplitHead(cs, i + 1);
      }
    }
  }

  /** When the first content comes after spaces and comments only, there is one statement exactly
      when no content follows a separator. */
  lemma FirstStatement(cs: seq<Class>, h: nat)
    requires h < |cs| && cs[h] == Content
    requires forall j :: 0 <= j < h ==> cs[j] == Comment || cs[j] == Space
    ensures Statements(cs) != [] && Statements(cs)[0] != [] && Statements(cs)[0][0] == h
    ensures |Statements(cs)| == 1 <==> !SeparatorThenContent(cs, 0)
  {
    SkipTrivia(cs, 0, h);
    assert [] + [h] == [h];
    SplitOpen(cs, h + 1, [h]);
    assert SeparatorThenContent(cs, 0) <==> SeparatorThenContent(cs, h + 1);
  }

  /** A lexer that knows blanks: outside comments, blanks before all content are spaces. */
  lemma SingleQueryAt(q: string, cs: seq<Class>, h: nat)
    requires |cs| == |q| && h < |q| && cs[h] == Content && IsQueryWord(WordAt(q, h))
    requires forall j :: 0 <= j < h ==> cs[j] == Comment || (cs[j] == Space && IsBlank(q[j]))
    ensures IsSingleQuery(q, cs) <==> !SeparatorThenContent(cs, 0)
  {
    FirstStatement(cs, h);
  }
}
