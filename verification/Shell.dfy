/** Rendering a tool invocation for the backup and restore Job scripts.

    The reader is a word splitter for one simple command, by the quoting rules
    of the POSIX.1-2017 Shell Command Language (sections 2.2.1 to 2.2.3 and 2.3).
    It refuses any text in which a character with a meaning to the shell stands
    unquoted, so a successful reading also says that nothing is expanded. */
module Shell {
  import opened Basics

  // ------------------------------------------------------------------- printer

  /** Every single quote becomes the four characters '\'' . */
  function EscapeQuotes(s: string): string {
    if s == "" then ""
    else (if s[0] == '\'' then "'\\''" else [s[0]]) + EscapeQuotes(s[1..])
  }

  function ShellQuote(s: string): string {
    "'" + EscapeQuotes(s) + "'"
  }

  function QuotedArgs(args: seq<string>): string {
    if args == [] then "" else " " + ShellQuote(args[0]) + QuotedArgs(args[1..])
  }

  lemma QuotedArgsSnoc(args: seq<string>, k: nat)
    requires k < |args|
    ensures QuotedArgs(args[..k + 1]) == QuotedArgs(args[..k]) + " " + ShellQuote(args[k])
  {
    if k == 0 {
      assert args[..1][1..] == [];
    } else {
      assert args[..k + 1][1..] == args[1..][..k] && args[..k][1..] == args[1..][..k - 1];
      QuotedArgsSnoc(args[1..], k - 1);
    }
  }

  /** A string builder: the script text is only ever appended to. */
  class Builder {
    var text: string

    constructor ()
      ensures text == ""
    {
      text := "";
    }

    method WriteString(s: string)
      modifies this
      ensures text == old(text) + s
    {
      text := text + s;
    }

    method WriteToolInvocation(tool: string, args: seq<string>)
      modifies this
      ensures text == old(text) + (tool + QuotedArgs(args))
    {
      WriteString(tool);
      for i := 0 to |args|
        invariant text == old(text) + (tool + QuotedArgs(args[..i]))
      {
        WriteString(" ");
        WriteString(ShellQuote(args[i]));
        QuotedArgsSnoc(args, i);
      }
      assert args[..|args|] == args;
    }
  }

  // -------------------------------------------------------------------- reader

  predicate IsBlank(c: char) { c == ' ' || c == '\t' }

  /** Characters that mean something to the shell when they are not quoted. */
  predicate IsSpecial(c: char) { c in "|&;<>()$`\n*?[#~=%{}!" }

  function Emit(word: Option<string>, rest: Option<seq<string>>): Option<seq<string>> {
    if rest.None? || word.None? then rest else Some([word.value] + rest.value)
  }

  function Started(word: Option<string>): string {
    if word.None? then "" else word.value
  }

  /** Outside quotes; `word` is the word under way, if one has started. */
  function ReadPlain(s: string, word: Option<string>): Option<seq<string>>
    decreases |s|
  {
    if s == "" then Emit(word, Some([]))
    else if IsBlank(s[0]) then Emit(word, ReadPlain(s[1..], None))
    else if s[0] == '\'' then ReadSingle(s[1..], Started(word))
    else if s[0] == '"' then ReadDouble(s[1..], Started(word))
    else if s[0] == '\\' then
      if |s| == 1 then None
      else if s[1] == '\n' then ReadPlain(s[2..], word)
      else ReadPlain(s[2..], Some(Started(word) + [s[1]]))
    else if IsSpecial(s[0]) then None
    else ReadPlain(s[1..], Some(Started(word) + [s[0]]))
  }

  /** Inside single quotes every character is literal up to the next single quote. */
  function ReadSingle(s: string, word: string): Option<seq<string>>
    decreases |s|
  {
    if s == "" then None
    else if s[0] == '\'' then ReadPlain(s[1..], Some(word))
    else ReadSingle(s[1..], word + [s[0]])
  }

  /** Inside double quotes a backslash escapes five characters and expansions are refused. */
  function ReadDouble(s: string, word: string): Option<seq<string>>
    decreases |s|
  {
    if s == "" then None
    else if s[0] == '"' then ReadPlain(s[1..], Some(word))
    else if s[0] == '$' || s[0] == '`' then None
    else if s[0] == '\\' && |s| > 1 && s[1] == '\n' then ReadDouble(s[2..], word)
    else if s[0] == '\\' && |s| > 1 && s[1] in "$`\"\\" then ReadDouble(s[2..], word + [s[1]])
    else ReadDouble(s[1..], word + [s[0]])
  }

  function Tokenize(command: string): Option<seq<string>> {
    ReadPlain(command, None)
  }

  /** A nonempty word with nothing in it that needs quoting, such as gpbackup or gprestore. */
  predicate IsPlainWord(w: string) {
    w != "" && forall i :: 0 <= i < |w| ==> IsLiteral(w[i])
  }

  // ---------------------------------------------------------------- round trip

  lemma ReadEscapedQuote(rest: string, word: string)
    ensures ReadSingle("'\\''" + rest, word) == ReadSingle(rest, word + "'")
  {
    var reopened := "'" + rest;
    var escaped := "\\'" + reopened;
    assert "'\\''" + rest == "'" + escaped;
    assert ("'" + escaped)[1..] == escaped && escaped[2..] == reopened && reopened[1..] == rest;
    assert ReadPlain(escaped, Some(word)) == ReadPlain(reopened, Some(word + "'"));
  }

  lemma ReadLiteral(c: char, rest: string, word: string)
    requires c != '\''
    ensures ReadSingle([c] + rest, word) == ReadSingle(rest, word + [c])
  {
    assert ([c] + rest)[1..] == rest;
  }

  lemma {:induction false} ReadQuotedBody(s: string, tail: string, word: string)
    ensures ReadSingle(EscapeQuotes(s) + ("'" + tail), word) == ReadPlain(tail, Some(word + s))
    decreases |s|
  {
    var close := "'" + tail;
    if s == "" {
      assert EscapeQuotes(s) + close == close && close[1..] == tail && word + s == word;
    } else {
      var rest := EscapeQuotes(s[1..]) + close;
      ReadQuotedBody(s[1..], tail, word + [s[0]]);
      assert word + [s[0]] + s[1..] == word + s;
      if s[0] == '\'' {
        assert EscapeQuotes(s) + close == "'\\''" + rest;
        ReadEscapedQuote(rest, word);
      } else {
        assert EscapeQuotes(s) + close == [s[0]] + rest;
        ReadLiteral(s[0], rest, word);
      }
    }
  }

  lemma ReadQuoted(s: string, tail: string)
    ensures ReadPlain(ShellQuote(s) + tail, None) == ReadPlain(tail, Some(s))
  {
    ReadQuotedBody(s, tail, "");
    var body := EscapeQuotes(s) + ("'" + tail);
    assert ShellQuote(s) + tail == "'" + body && ("'" + body)[1..] == body;
    assert "" + s == s;
  }

  lemma {:induction false} ReadArgs(word: string, args: seq<string>)
    ensures ReadPlain(QuotedArgs(args), Some(word)) == Some([word] + args)
    decreases |args|
  {
    if args == [] {
      assert [word] + args == [word];
    } else {
      var rest := QuotedArgs(args[1..]);
      assert QuotedArgs(args) == " " + (ShellQuote(args[0]) + rest);
      assert (" " + (ShellQuote(args[0]) + rest))[1..] == ShellQuote(args[0]) + rest;
      ReadQuoted(args[0], rest);
      ReadArgs(args[0], args[1..]);
      assert [args[0]] + args[1..] == args;
    }
  }

  predicate IsLiteral(c: char) { !IsBlank(c) && !IsSpecial(c) && c != '\'' && c != '"' && c != '\\' }

  lemma ReadOne(read: Option<string>, c: char, rest: string)
    requires IsLiteral(c)
    ensures ReadPlain([c] + rest, read) == ReadPlain(rest, Some(Started(read) + [c]))
  {
    assert ([c] + rest)[1..] == rest;
  }

  lemma {:induction false} ReadTool(read: Option<string>, w: string, tail: string)
    requires forall i :: 0 <= i < |w| ==> IsLiteral(w[i])
    requires read.Some? || w != ""
    ensures ReadPlain(w + tail, read) == ReadPlain(tail, Some(Started(read) + w))
    decreases |w|
  {
    if w == "" {
      assert w + tail == tail && Started(read) + w == Started(read);
    } else {
      var word, rest := Started(read) + [w[0]], w[1..] + tail;
      assert w + tail == [w[0]] + rest;
      ReadOne(read, w[0], rest);
      ReadTool(Some(word), w[1..], tail);
      assert word + w[1..] == Started(read) + w;
    }
  }

  /** The shell reads the printed command back as the tool name followed by
      exactly the original arguments, whatever characters they hold. */
  lemma InvocationRoundTrip(tool: string, args: seq<string>)
    requires IsPlainWord(tool)
    ensures Tokenize(tool + QuotedArgs(args)) == Some([tool] + args)
  {
    ReadTool(None, tool, QuotedArgs(args));
    assert "" + tool == tool;
    ReadArgs(tool, args);
  }
}
