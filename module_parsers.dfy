// libcutils/module_parsers.c: the tokenizer and line rules that read
// modules.alias and modules.blacklist into lists, and the two lookups over
// those lists.
//
// next_token works on the loaded file text in place: the text of a token is
// compacted (quotes dropped, escapes decoded, an escaped letter then copied
// once more) over the characters it was read from and ended with a NUL. The
// specification functions below describe one call on the text from the parse
// position onwards, so that the positions a call has already rewritten never
// matter to the calls after it.

module ModuleParsers {
  import opened CStrings

  const T_EOF: nat := 0
  const T_TEXT: nat := 1
  const T_NEWLINE: nat := 2

  const READ_MODULES_ALIAS: int := 1
  const READ_MODULES_BLKLST: int := 2

  /** Space, tab and carriage return end a token. */
  predicate Blank(c: char)
  {
    c == ' ' || c == '\t' || c == '\r'
  }

  /** The text from the parse position ends with the NUL load_file appends. */
  predicate Ends(r: seq<char>)
  {
    |r| > 0 && r[|r| - 1] == NUL
  }

  /**
   * What one next_token call returns and leaves behind: the token, the new
   * nexttoken, how far it moves the parse position, the token text and how
   * many line continuations it crossed.
   */
  datatype Lexed = Lexed(token: nat, next: nat, consumed: nat, text: string, lines: nat)

  /** The index of the first '\n' or NUL at or after i. */
  function LineEnd(r: seq<char>, i: nat): (j: nat)
    requires Ends(r) && i < |r|
    ensures i <= j < |r| && (r[j] == NUL || r[j] == '\n')
    ensures forall k :: i <= k < j ==> r[k] != NUL && r[k] != '\n'
    decreases |r| - i
  {
    if r[i] == NUL || r[i] == '\n' then i else LineEnd(r, i + 1)
  }

  /** The first index at or after i holding neither a space nor a tab. */
  function SkipBlanks(r: seq<char>, i: nat): (j: nat)
    requires Ends(r) && i < |r|
    ensures i <= j < |r| && r[j] != ' ' && r[j] != '\t'
    ensures forall k :: i <= k < j ==> r[k] == ' ' || r[k] == '\t'
    decreases |r| - i
  {
    if r[i] == ' ' || r[i] == '\t' then SkipBlanks(r, i + 1) else i
  }

  /** Inside a token, at x, with acc already written. */
  function TextFrom(r: seq<char>, x: nat, acc: string, lines: nat): (l: Lexed)
    requires Ends(r) && x < |r|
    ensures x <= l.consumed < |r|
    ensures r[x] != NUL ==> x < l.consumed
    ensures l.token == T_TEXT || (l.token == T_EOF && l.next == 0)
    ensures l.next == 0 || l.next == T_NEWLINE
    ensures NoNul(acc) ==> NoNul(l.text)
    decreases |r| - x, 0
  {
    var c := r[x];
    if c == NUL then Lexed(T_TEXT, 0, x, acc, lines)
    else if Blank(c) then Lexed(T_TEXT, 0, x + 1, acc, lines)
    else if c == '\n' then Lexed(T_TEXT, T_NEWLINE, x + 1, acc, lines)
    else if c == '"' then Quoted(r, x + 1, acc, lines)
    else if c == '\\' then Escape(r, x + 1, acc, lines)
    else TextFrom(r, x + 1, acc + [c], lines)
  }

  /** Inside a double-quoted segment: everything up to the closing quote is copied. */
  function Quoted(r: seq<char>, x: nat, acc: string, lines: nat): (l: Lexed)
    requires Ends(r) && x < |r|
    ensures x <= l.consumed < |r|
    ensures l.token == T_TEXT || (l.token == T_EOF && l.next == 0)
    ensures l.next == 0 || l.next == T_NEWLINE
    ensures NoNul(acc) ==> NoNul(l.text)
    decreases |r| - x, 0
  {
    var c := r[x];
    if c == NUL then Lexed(T_EOF, 0, x, acc, lines)
    else if c == '"' then TextFrom(r, x + 1, acc, lines)
    else Quoted(r, x + 1, acc + [c], lines)
  }

  /** At a double quote the text goes on inside the quotes. */
  lemma TextFromQuote(r: seq<char>, i: nat, acc: string, lines: nat)
    requires Ends(r) && i < |r| && r[i] == '"'
    ensures i + 1 < |r| && TextFrom(r, i, acc, lines) == Quoted(r, i + 1, acc, lines)
  {
  }

  /** At a backslash the text goes on with the escape after it. */
  lemma TextFromEscape(r: seq<char>, i: nat, acc: string, lines: nat)
    requires Ends(r) && i < |r| && r[i] == '\\'
    ensures i + 1 < |r| && TextFrom(r, i, acc, lines) == Escape(r, i + 1, acc, lines)
  {
  }

  /** An ordinary character inside quotes is taken into the text. */
  lemma QuotedStep(r: seq<char>, x: nat, acc: string, lines: nat)
    requires Ends(r) && x < |r| && r[x] != NUL && r[x] != '"'
    ensures x + 1 < |r| && Quoted(r, x, acc, lines) == Quoted(r, x + 1, acc + [r[x]], lines)
  {
  }

  /** At its NUL a quoted segment ends the file; at its closing quote the text goes on after it. */
  lemma QuotedEnd(r: seq<char>, x: nat, acc: string, lines: nat)
    requires Ends(r) && x < |r| && (r[x] == NUL || r[x] == '"')
    ensures r[x] == NUL ==> Quoted(r, x, acc, lines) == Lexed(T_EOF, 0, x, acc, lines)
    ensures r[x] == '"' ==> x + 1 < |r| && Quoted(r, x, acc, lines) == TextFrom(r, x + 1, acc, lines)
  {
  }

  /**
   * Just after a backslash. For n, r, t and a second backslash the decoded
   * character is written and the text loop resumes AT the escaped character,
   * which is then handled once more. A backslash before a line feed
   * continues the token after the leading blanks of the next line; before a
   * lone CR the CR is dropped; before CR LF the line is counted but the
   * position moves only onto the LF, which then ends the token
   * (CrLfEndsWord).
   */
  function Escape(r: seq<char>, x: nat, acc: string, lines: nat): (l: Lexed)
    requires Ends(r) && x < |r|
    ensures x <= l.consumed < |r|
    ensures l.token == T_TEXT || (l.token == T_EOF && l.next == 0)
    ensures l.next == 0 || l.next == T_NEWLINE
    ensures NoNul(acc) ==> NoNul(l.text)
    decreases |r| - x, 1
  {
    var c := r[x];
    if c == NUL then Lexed(T_TEXT, 0, x, acc, lines)
    else if c == 'n' then TextFrom(r, x, acc + ['\n'], lines)
    else if c == 'r' then TextFrom(r, x, acc + ['\r'], lines)
    else if c == 't' then TextFrom(r, x, acc + ['\t'], lines)
    else if c == '\\' then TextFrom(r, x, acc + ['\\'], lines)
    else if c == '\r' && r[x + 1] != '\n' then TextFrom(r, x + 1, acc, lines)
    else if c == '\r' || c == '\n' then TextFrom(r, SkipBlanks(r, x + 1), acc, lines + 1)
    else TextFrom(r, x + 1, acc + [c], lines)
  }

  /** Between tokens, at i. */
  function Skip(r: seq<char>, i: nat): (l: Lexed)
    requires Ends(r) && i < |r|
    ensures l.consumed < |r|
    ensures l.token != T_EOF ==> i < l.consumed
    ensures l.token == T_EOF || l.token == T_TEXT || (l.token == T_NEWLINE && l.next == 0)
    ensures l.token == T_EOF ==> l.next == 0
    ensures l.next == 0 || l.next == T_NEWLINE
    ensures NoNul(l.text)
    decreases |r| - i
  {
    var c := r[i];
    if c == NUL then Lexed(T_EOF, 0, i, "", 0)
    else if c == '\n' then Lexed(T_NEWLINE, 0, i + 1, "", 0)
    else if Blank(c) then Skip(r, i + 1)
    else if c == '#' then
      var j := LineEnd(r, i);
      if r[j] == '\n' then Lexed(T_NEWLINE, 0, j + 1, "", 0) else Lexed(T_EOF, 0, j, "", 0)
    else TextFrom(r, i, [], 0)
  }

  /** One next_token call: a pending token is returned first and the position stays. */
  function Lex(r: seq<char>, next: nat): (l: Lexed)
    requires Ends(r)
    ensures NoNul(l.text)
  {
    if next != 0 then Lexed(next, 0, 0, "", 0) else Skip(r, 0)
  }

  datatype Token = Word(text: string) | Newline

  /** The tokens next_token hands out until it returns T_EOF. */
  function Tokens(r: seq<char>, next: nat): (t: seq<Token>)
    requires Ends(r) && (next == 0 || next == T_NEWLINE)
    ensures forall i :: 0 <= i < |t| && t[i].Word? ==> NoNul(t[i].text)
    decreases |r|, next
  {
    var l := Lex(r, next);
    if l.token == T_EOF then []
    else [if l.token == T_TEXT then Word(l.text) else Newline] + Tokens(r[l.consumed..], l.next)
  }

  /** The lines ended by a newline token, each as its words; words after the last newline are not included. */
  function Lines(toks: seq<Token>): (ls: seq<seq<string>>)
    ensures |ls| <= |toks|
    ensures (forall i :: 0 <= i < |toks| ==> toks[i].Word?) ==> ls == []
  {
    if toks == [] then []
    else if toks[|toks| - 1].Newline? then Lines(toks[..|toks| - 1]) + [Pending(toks[..|toks| - 1])]
    else Lines(toks[..|toks| - 1])
  }

  /** The words after the last newline token. */
  function Pending(toks: seq<Token>): seq<string>
  {
    if toks == [] then []
    else if toks[|toks| - 1].Newline? then []
    else Pending(toks[..|toks| - 1]) + [toks[|toks| - 1].text]
  }

  /** A list node: an alias entry (module_alias_node) or a blacklist entry (module_blacklist_node). */
  datatype ModuleNode = AliasNode(name: string, pattern: Option<string>) | BlackNode(name: string)

  /** parse_line_module_alias: three arguments give name = args[2], pattern = args[1]. */
  function AliasRule(args: seq<string>): Option<ModuleNode>
  {
    if |args| == 3 then Some(AliasNode(args[2], Some(args[1]))) else None
  }

  /** parse_line_module_blacklist: two arguments, the first starting with "blacklist". */
  function BlacklistRule(args: seq<string>): Option<ModuleNode>
  {
    if |args| == 2 && StartsWith(args[0], "blacklist") then Some(BlackNode(args[1])) else None
  }

  function RuleFor(mode: int, args: seq<string>): Option<ModuleNode>
  {
    if mode == READ_MODULES_ALIAS then AliasRule(args) else BlacklistRule(args)
  }

  /** The arguments module_parser keeps of a line: at most n, the first ones. */
  function Kept(words: seq<string>, n: nat): (r: seq<string>)
    ensures |r| == if |words| <= n then |words| else n
    ensures r == words[..|r|]
  {
    if |words| <= n then words else words[..n]
  }

  function ArgsToRead(mode: int): nat
  {
    if mode == READ_MODULES_ALIAS then 3 else 2
  }

  /** The nodes the rule adds for the lines, each line cut to the arguments the driver keeps. */
  function NodesOf(mode: int, lines: seq<seq<string>>): seq<ModuleNode>
  {
    if lines == [] then []
    else
      var last := lines[|lines| - 1];
      var r := if last != [] then RuleFor(mode, Kept(last, ArgsToRead(mode))) else None;
      NodesOf(mode, lines[..|lines| - 1]) + (if r.Some? then [r.value] else [])
  }

  /** What module_parser appends to the list for a loaded file. */
  function ParsedNodes(mode: int, data: string): seq<ModuleNode>
  {
    NodesOf(mode, Lines(Tokens(data + [NUL], 0)))
  }

  /** A line with at least three words gives an alias entry whatever its first word: the driver keeps three. */
  lemma AliasLineAccepted(line: seq<string>)
    requires |line| >= 3
    ensures NodesOf(READ_MODULES_ALIAS, [line]) == [AliasNode(line[2], Some(line[1]))]
  {
    assert [line][..0] == [];
  }

  /** A line with fewer than three words gives no alias entry. */
  lemma ShortAliasLineIgnored(line: seq<string>)
    requires |line| < 3
    ensures NodesOf(READ_MODULES_ALIAS, [line]) == []
  {
    assert [line][..0] == [];
  }

  /** A blacklist line gives its second word exactly when the first starts with "blacklist". */
  lemma BlacklistLine(line: seq<string>)
    requires |line| >= 2
    ensures NodesOf(READ_MODULES_BLKLST, [line]) ==
      if StartsWith(line[0], "blacklist") then [BlackNode(line[1])] else []
  {
    assert [line][..0] == [];
    assert Kept(line, 2) == line[..2];
  }

  /** Words after the last newline never reach a line rule. */
  lemma {:induction false} UnterminatedLineDropped(toks: seq<Token>, w: string)
    ensures Lines(toks + [Word(w)]) == Lines(toks)
    ensures Pending(toks + [Word(w)]) == Pending(toks) + [w]
  {
    assert (toks + [Word(w)])[..|toks|] == toks;
  }

  /** A newline token turns the pending words into a line. */
  lemma {:induction false} NewlineEndsLine(toks: seq<Token>)
    ensures Lines(toks + [Newline]) == Lines(toks) + [Pending(toks)]
    ensures Pending(toks + [Newline]) == []
  {
    assert (toks + [Newline])[..|toks|] == toks;
  }

  lemma NodesOfSnoc(mode: int, lines: seq<seq<string>>, line: seq<string>)
    ensures NodesOf(mode, lines + [line]) == NodesOf(mode, lines) +
      (if line != [] && RuleFor(mode, Kept(line, ArgsToRead(mode))).Some? then [RuleFor(mode, Kept(line, ArgsToRead(mode))).value] else [])
  {
    assert (lines + [line])[..|lines|] == lines;
  }

  // ---------------------------------------------------------------------
  // Tokenizer behaviour on concrete shapes

  /** An ordinary character: not a separator, quote, backslash, comment mark or NUL. */
  predicate Plain(c: char)
  {
    c != NUL && !Blank(c) && c != '\n' && c != '"' && c != '\\' && c != '#'
  }

  predicate PlainWord(w: string)
  {
    w != [] && forall i :: 0 <= i < |w| ==> Plain(w[i])
  }

  lemma {:induction false} TextOfPlain(r: seq<char>, x: nat, acc: string, w: string, lines: nat)
    requires Ends(r) && x + |w| < |r| && r[x..x + |w|] == w
    requires forall i :: 0 <= i < |w| ==> Plain(w[i])
    ensures TextFrom(r, x, acc, lines) == TextFrom(r, x + |w|, acc + w, lines)
    decreases |w|
  {
    if w != [] {
      assert r[x] == w[0];
      assert r[x + 1..x + 1 + |w[1..]|] == w[1..];
      TextOfPlain(r, x + 1, acc + [w[0]], w[1..], lines);
      assert acc + [w[0]] + w[1..] == acc + w;
    } else {
      assert acc + w == acc;
    }
  }

  /** A plain word followed by a space reads back as that word, and the position moves past the space. */
  lemma PlainWordThenSpace(w: string, rest: seq<char>)
    requires PlainWord(w) && Ends(rest)
    ensures Lex(w + " " + rest, 0) == Lexed(T_TEXT, 0, |w| + 1, w, 0)
  {
    var r := w + " " + rest;
    assert r[0..|w|] == w;
    TextOfPlain(r, 0, [], w, 0);
    assert r[|w|] == ' ';
    assert [] + w == w;
  }

  /** A plain word right before a newline is returned with the newline held back for the next call. */
  lemma PlainWordThenNewline(w: string, rest: seq<char>)
    requires PlainWord(w) && Ends(rest)
    ensures Lex(w + "\n" + rest, 0) == Lexed(T_TEXT, T_NEWLINE, |w| + 1, w, 0)
    ensures Lex(rest, T_NEWLINE).token == T_NEWLINE
  {
    var r := w + "\n" + rest;
    assert r[0..|w|] == w;
    TextOfPlain(r, 0, [], w, 0);
    assert r[|w|] == '\n';
    assert [] + w == w;
  }

  /** A comment is skipped to the end of its line, which still ends the line. */
  lemma CommentLine(c: string, rest: seq<char>)
    requires forall i :: 0 <= i < |c| ==> c[i] != NUL && c[i] != '\n'
    requires Ends(rest)
    ensures Lex("#" + c + "\n" + rest, 0) == Lexed(T_NEWLINE, 0, |c| + 2, "", 0)
  {
    var r := "#" + c + "\n" + rest;
    assert r[0] == '#';
    assert forall k :: 0 <= k < |c| ==> r[k + 1] == c[k];
    assert r[|c| + 1] == '\n';
    LineEndAt(r, 0, |c| + 1);
  }

  lemma {:induction false} LineEndAt(r: seq<char>, i: nat, j: nat)
    requires Ends(r) && i <= j < |r| && (r[j] == NUL || r[j] == '\n')
    requires forall k :: i <= k < j ==> r[k] != NUL && r[k] != '\n'
    ensures LineEnd(r, i) == j
    decreases j - i
  {
    if i < j {
      LineEndAt(r, i + 1, j);
    }
  }

  /** A quoted segment is copied without its quotes, blanks included. */
  lemma QuotedSegment(q: string, rest: seq<char>)
    requires forall i :: 0 <= i < |q| ==> q[i] != NUL && q[i] != '"'
    requires Ends(rest)
    ensures Lex("\"" + q + "\"" + " " + rest, 0) == Lexed(T_TEXT, 0, |q| + 3, q, 0)
  {
    var r := "\"" + q + "\"" + " " + rest;
    assert r[0] == '"';
    assert r[1..1 + |q|] == q;
    QuotedCopies(r, 1, [], q);
    assert r[|q| + 1] == '"';
    assert r[|q| + 2] == ' ';
    assert [] + q == q;
  }

  lemma {:induction false} QuotedCopies(r: seq<char>, x: nat, acc: string, q: string)
    requires Ends(r) && x + |q| < |r| && r[x..x + |q|] == q
    requires forall i :: 0 <= i < |q| ==> q[i] != NUL && q[i] != '"'
    ensures Quoted(r, x, acc, 0) == Quoted(r, x + |q|, acc + q, 0)
    decreases |q|
  {
    if q != [] {
      assert r[x] == q[0];
      assert r[x + 1..x + 1 + |q[1..]|] == q[1..];
      QuotedCopies(r, x + 1, acc + [q[0]], q[1..]);
      assert acc + [q[0]] + q[1..] == acc + q;
    } else {
      assert acc + q == acc;
    }
  }

  /** An unterminated quote ends the input: next_token returns T_EOF. */
  lemma UnterminatedQuote(q: string)
    requires forall i :: 0 <= i < |q| ==> q[i] != NUL && q[i] != '"'
    ensures Lex("\"" + q + [NUL], 0).token == T_EOF
  {
    var r := "\"" + q + [NUL];
    assert r[1..1 + |q|] == q;
    assert r[0] == '"';
    assert Skip(r, 0) == TextFrom(r, 0, [], 0) == Quoted(r, 1, [], 0);
    QuotedCopies(r, 1, [], q);
    assert r[1 + |q|] == NUL;
  }

  /**
   * The code as written decodes backslash-n to a newline and then copies the
   * 'n' as well, because the text loop resumes at the escaped letter.
   */
  lemma EscapeLetterKept(rest: seq<char>)
    requires Ends(rest)
    ensures Lex("a\\n " + rest, 0) == Lexed(T_TEXT, 0, 4, "a\nn", 0)
  {
    var r := "a\\n " + rest;
    assert r[0] == 'a' && r[1] == '\\' && r[2] == 'n' && r[3] == ' ';
    assert [] + ['a'] == "a";
    assert "a" + ['\n'] == "a\n";
    assert "a\n" + ['n'] == "a\nn";
    assert Skip(r, 0) == TextFrom(r, 0, [], 0) == TextFrom(r, 1, "a", 0);
    assert TextFrom(r, 1, "a", 0) == Escape(r, 2, "a", 0) == TextFrom(r, 2, "a\n", 0);
    assert TextFrom(r, 2, "a\n", 0) == TextFrom(r, 3, "a\nn", 0);
  }

  /**
   * The code as written does not continue a word over backslash CR LF: the
   * CR case falls into the LF case with the position still on the CR, so
   * the position moves only onto the LF, which then ends the word.
   */
  lemma CrLfEndsWord(r: seq<char>, x: nat, acc: string, lines: nat)
    requires Ends(r) && x + 1 < |r| && r[x] == '\r' && r[x + 1] == '\n'
    ensures Escape(r, x, acc, lines) == Lexed(T_TEXT, T_NEWLINE, x + 2, acc, lines + 1)
  {
    assert SkipBlanks(r, x + 1) == x + 1;
  }

  /** For instance "a", backslash, CR LF, "b": the word is "a" alone and the line ends there. */
  lemma CrLfContinuationLost(rest: seq<char>)
    requires Ends(rest)
    ensures Lex("a\\\r\nb" + rest, 0) == Lexed(T_TEXT, T_NEWLINE, 4, "a", 1)
  {
    var r := "a\\\r\nb" + rest;
    assert r[0] == 'a' && r[1] == '\\' && r[2] == '\r' && r[3] == '\n';
    assert [] + ['a'] == "a";
    assert Skip(r, 0) == TextFrom(r, 0, [], 0) == TextFrom(r, 1, "a", 0) == Escape(r, 2, "a", 0);
    CrLfEndsWord(r, 2, "a", 0);
  }

  /** The character an escape letter n, r, t or backslash stands for. */
  function Unescaped(c: char): char
  {
    if c == 'n' then '\n' else if c == 'r' then '\r' else if c == 't' then '\t' else c
  }

  predicate EscapeLetter(c: char)
  {
    c == 'n' || c == 'r' || c == 't' || c == '\\'
  }

  /**
   * The escape the code evidently intends: backslash CR LF is a line
   * continuation, as the comment at the CR case says backslash LF is, and
   * an escape letter is consumed together with the backslash; every other
   * escape as written.
   */
  function EscapeIntended(r: seq<char>, x: nat, acc: string, lines: nat): (l: Lexed)
    requires Ends(r) && x < |r|
    ensures x <= l.consumed < |r|
    ensures l.token == T_TEXT || (l.token == T_EOF && l.next == 0)
  {
    if r[x] == '\r' && r[x + 1] == '\n' then Escape(r, x + 1, acc, lines)
    else if EscapeLetter(r[x]) then TextFrom(r, x + 1, acc + [Unescaped(r[x])], lines)
    else Escape(r, x, acc, lines)
  }

  /**
   * As written, backslash n, r or t writes the decoded character and then
   * copies the letter as well; a doubled backslash writes one backslash and
   * then starts a second escape at the other one.
   */
  lemma EscapeLetterTwice(r: seq<char>, x: nat, acc: string, lines: nat)
    requires Ends(r) && x < |r| && EscapeLetter(r[x])
    ensures x + 1 < |r|
    ensures r[x] != '\\' ==> Escape(r, x, acc, lines) == TextFrom(r, x + 1, acc + [Unescaped(r[x]), r[x]], lines)
    ensures r[x] == '\\' ==> Escape(r, x, acc, lines) == Escape(r, x + 1, acc + ['\\'], lines)
  {
    assert acc + [Unescaped(r[x])] + [r[x]] == acc + [Unescaped(r[x]), r[x]];
  }

  /** Under the intended escape, an escape letter adds only its decoded character and the word goes on after it. */
  lemma EscapeLetterOnce(r: seq<char>, x: nat, acc: string, lines: nat)
    requires Ends(r) && x < |r| && EscapeLetter(r[x])
    ensures x + 1 < |r|
    ensures EscapeIntended(r, x, acc, lines) == TextFrom(r, x + 1, acc + [Unescaped(r[x])], lines)
  {
  }

  /** For instance "a", backslash, "nb", space: the intended escape reads the word "a", newline, "b". */
  lemma EscapeLetterDecoded(rest: seq<char>)
    requires Ends(rest)
    ensures EscapeIntended("a\\nb " + rest, 2, "a", 0) == Lexed(T_TEXT, 0, 5, "a\nb", 0)
  {
    var r := "a\\nb " + rest;
    assert r[2] == 'n' && r[3] == 'b' && r[4] == ' ';
    assert "a" + ['\n'] == "a\n";
    assert "a\n" + ['b'] == "a\nb";
    assert TextFrom(r, 3, "a\n", 0) == TextFrom(r, 4, "a\nb", 0);
  }

  /** Under the intended escape, backslash CR LF continues the word after the next line's leading blanks. */
  lemma CrLfContinues(r: seq<char>, x: nat, acc: string, lines: nat)
    requires Ends(r) && x + 1 < |r| && r[x] == '\r' && r[x + 1] == '\n'
    ensures EscapeIntended(r, x, acc, lines) == TextFrom(r, SkipBlanks(r, x + 2), acc, lines + 1)
  {
  }

  /** For instance "a", backslash, CR LF, "b", space: the intended escape reads the one word "ab". */
  lemma CrLfContinuationKept(rest: seq<char>)
    requires Ends(rest)
    ensures EscapeIntended("a\\\r\nb " + rest, 2, "a", 0) == Lexed(T_TEXT, 0, 6, "ab", 1)
  {
    var r := "a\\\r\nb " + rest;
    assert r[2] == '\r' && r[3] == '\n' && r[4] == 'b' && r[5] == ' ';
    assert "a" + ['b'] == "ab";
    CrLfContinues(r, 2, "a", 0);
    assert SkipBlanks(r, 4) == 4;
    assert TextFrom(r, 4, "a", 1) == TextFrom(r, 5, "ab", 1);
  }

  // ---------------------------------------------------------------------
  // The lists

  /** A list head with its nodes in list order. */
  class ModuleList {
    var nodes: seq<ModuleNode>

    constructor ()
      ensures nodes == []
    {
      nodes := [];
    }

    /** free_alias_list and free_black_list: every node is unlinked, first to last. */
    method Free()
      modifies this
      ensures nodes == []
    {
      ghost var all := nodes;
      while nodes != []
        invariant nodes == all[|all| - |nodes|..]
        decreases |nodes|
      {
        nodes := nodes[1..];
      }
    }
  }

  /** The parser state over the loaded file text (with its terminating NUL). */
  class ParseState {
    const buf: array<char>
    var ptr: nat
    var text: nat
    var line: nat
    var nexttoken: nat

    ghost predicate Valid()
      reads this, buf
    {
      buf.Length > 0 && buf[buf.Length - 1] == NUL && ptr < buf.Length &&
      (nexttoken == 0 || nexttoken == T_NEWLINE)
    }

    /** The state module_parser sets up: line 1, at the start, nothing pending. */
    constructor (data: seq<char>)
      ensures Valid() && fresh(buf)
      ensures buf[..] == data + [NUL] && ptr == 0 && line == 1 && nexttoken == 0
    {
      var a := new char[|data| + 1]((i: int) requires 0 <= i <= |data| => if i < |data| then data[i] else NUL);
      buf := a;
      ptr, text, line, nexttoken := 0, 0, 1, 0;
      assert a[..] == data + [NUL];
    }

    /** The parse position's text: what the next call reads. */
    ghost function Rest(): seq<char>
      reads this, buf
      requires Valid()
    {
      buf[ptr..]
    }

    /**
     * next_token. The token text is written over the characters it came from,
     * starting at the token's first character and ended with a NUL; nothing
     * from the new parse position on, and nothing before the old one, changes.
     */
    method NextToken() returns (t: nat, ghost l: Lexed)
      requires Valid()
      modifies this`ptr, this`text, this`line, this`nexttoken, buf
      ensures Valid()
      ensures l == Lex(old(buf[ptr..]), old(nexttoken))
      ensures old(buf[..])[old(ptr)..] == old(buf[ptr..])
      ensures buf[..][..old(ptr)] == old(buf[..])[..old(ptr)] && buf[..][ptr..] == old(buf[..])[ptr..]
      ensures
        t == l.token && ptr == old(ptr) + l.consumed && nexttoken == l.next && line == old(line) + l.lines &&
        (t == T_TEXT ==>
          old(ptr) <= text && Holds(buf[..], text, l.text, ptr))
      ensures forall k :: ptr <= k < buf.Length ==> buf[k] == old(buf[k])
      ensures forall k :: 0 <= k < old(ptr) ==> buf[k] == old(buf[k])
    {
      l := Lex(buf[ptr..], nexttoken);
      if nexttoken != 0 {
        t := nexttoken;
        nexttoken := 0;
        return;
      }
      t := ScanToken();
    }

    /** next_token with nothing pending: blanks, end of input, newline and comments, else a text token. */
    method ScanToken() returns (t: nat)
      requires Valid() && nexttoken == 0
      modifies this`ptr, this`text, this`line, this`nexttoken, buf
      ensures Valid()
      ensures var l := Skip(old(buf[ptr..]), 0);
        t == l.token && ptr == old(ptr) + l.consumed && nexttoken == l.next && line == old(line) + l.lines &&
        (t == T_TEXT ==>
          old(ptr) <= text && Holds(buf[..], text, l.text, ptr))
      ensures forall k :: ptr <= k < buf.Length ==> buf[k] == old(buf[k])
      ensures forall k :: 0 <= k < old(ptr) ==> buf[k] == old(buf[k])
    {
      ghost var p := ptr;
      ghost var r := buf[p..];
      var x := ptr;
      while Blank(buf[x])
        invariant p <= x < buf.Length
        invariant Skip(r, x - p) == Skip(r, 0)
        decreases buf.Length - x
      {
        x := x + 1;
      }
      var c := buf[x];
      assert c == r[x - p];
      if c == NUL {
        ptr := x;
        t := T_EOF;
      } else if c == '\n' {
        ptr := x + 1;
        t := T_NEWLINE;
      } else if c == '#' {
        t := SkipComment(x, p, r);
      } else {
        assert Skip(r, x - p) == TextFrom(r, x - p, [], 0);
        t := ScanText(x, p, r);
      }
    }

    /** A comment from the '#' at x0 to the end of its line. */
    method SkipComment(x0: nat, ghost p: nat, ghost r: seq<char>) returns (t: nat)
      requires Valid() && nexttoken == 0 && p == ptr && r == buf[p..]
      requires p <= x0 < buf.Length && r[x0 - p] == '#'
      modifies this`ptr
      ensures Valid()
      ensures var l := Skip(r, x0 - p);
        t == l.token && ptr == p + l.consumed && nexttoken == l.next && l.lines == 0 && t != T_TEXT
    {
      var x := x0;
      while buf[x] != NUL && buf[x] != '\n'
        invariant x0 <= x < buf.Length
        invariant LineEnd(r, x - p) == LineEnd(r, x0 - p)
        decreases buf.Length - x
      {
        x := x + 1;
      }
      if buf[x] == '\n' {
        ptr := x + 1;
        t := T_NEWLINE;
      } else {
        ptr := x;
        t := T_EOF;
      }
    }

    /** Writes one character of the token text at s, just after what is already written. */
    method Put(s: nat, c: char)
      requires text <= s < buf.Length
      modifies buf
      ensures buf[text..s + 1] == old(buf[text..s]) + [c]
      ensures forall k :: 0 <= k < buf.Length && k != s ==> buf[k] == old(buf[k])
    {
      buf[s] := c;
    }

    /** The text part of next_token, from the token's first character at x0. */
    method ScanText(x0: nat, ghost p: nat, ghost r: seq<char>) returns (t: nat)
      requires Valid() && nexttoken == 0 && p == ptr && r == buf[p..]
      requires p <= x0 < buf.Length
      modifies this`ptr, this`text, this`line, this`nexttoken, buf
      ensures Valid()
      ensures var l := TextFrom(r, x0 - p, [], 0);
        t == l.token && ptr == p + l.consumed && nexttoken == l.next && line == old(line) + l.lines &&
        (t == T_TEXT ==>
          p <= text && Holds(buf[..], text, l.text, ptr))
      ensures forall k :: ptr <= k < buf.Length ==> buf[k] == old(buf[k])
      ensures forall k :: 0 <= k < p ==> buf[k] == old(buf[k])
    {
      text := x0;
      assert forall k :: p <= k < buf.Length ==> buf[k] == r[k - p];
      var x, s, lines, eof := TextLoop(x0, p, r);
      if eof {
        ptr := x;
        t := T_EOF;
      } else {
        t := EndText(x, s, p, r, lines);
      }
    }

    /** The text loop of next_token, from the token's first character at x0 to the character that ends it. */
    method TextLoop(x0: nat, ghost p: nat, ghost r: seq<char>) returns (x: nat, s: nat, ghost lines: nat, eof: bool)
      requires Ends(r) && p <= text == x0 < buf.Length && p + |r| == buf.Length
      requires forall k :: x0 <= k < buf.Length ==> buf[k] == r[k - p]
      modifies this`line, buf
      ensures text <= s <= x < buf.Length && x0 <= x
      ensures forall k :: x <= k < buf.Length ==> buf[k] == r[k - p]
      ensures forall k :: 0 <= k < text ==> buf[k] == old(buf[k])
      ensures line == old(line) + lines
      ensures var l := TextFrom(r, x0 - p, [], 0);
        if eof then l.token == T_EOF && l.next == 0 && x - p == l.consumed && l.lines == lines
        else (buf[x] == NUL || Blank(buf[x]) || buf[x] == '\n') && TextFrom(r, x - p, buf[text..s], lines) == l
    {
      x, s, lines, eof := x0, x0, 0, false;
      assert buf[text..s] == [];
      while !eof && buf[x] != NUL && !Blank(buf[x]) && buf[x] != '\n'
        invariant text <= s <= x < buf.Length && x0 <= x
        invariant forall k :: x <= k < buf.Length ==> buf[k] == r[k - p]
        invariant forall k :: 0 <= k < text ==> buf[k] == old(buf[k])
        invariant line == old(line) + lines
        invariant var l := TextFrom(r, x0 - p, [], 0);
          if eof then l.token == T_EOF && l.next == 0 && x - p == l.consumed && l.lines == lines
          else TextFrom(r, x - p, buf[text..s], lines) == l
        decreases buf.Length - x, if eof then 0 else 1
      {
        x, s, lines, eof := TextStep(x, s, p, r, lines);
      }
    }

    /** The end of a text token at x: its text is ended with a NUL and the position moves past the delimiter. */
    method EndText(x: nat, s: nat, ghost p: nat, ghost r: seq<char>, ghost lines: nat) returns (t: nat)
      requires Ends(r) && p <= text <= s <= x < buf.Length && p + |r| == buf.Length
      requires forall k :: x <= k < buf.Length ==> buf[k] == r[k - p]
      requires buf[x] == NUL || Blank(buf[x]) || buf[x] == '\n'
      requires nexttoken == 0 && NoNul(TextFrom(r, x - p, buf[text..s], lines).text)
      modifies this`ptr, this`nexttoken, buf
      ensures var l := TextFrom(r, x - p, old(buf[text..s]), lines);
        t == l.token && ptr == p + l.consumed && nexttoken == l.next && l.lines == lines &&
        Holds(buf[..], text, l.text, ptr)
      ensures forall k :: ptr <= k < buf.Length ==> buf[k] == old(buf[k])
      ensures forall k :: 0 <= k < text ==> buf[k] == old(buf[k])
    {
      var c := buf[x];
      assert c == r[x - p];
      ghost var acc := buf[text..s];
      buf[s] := NUL;
      assert buf[text..s] == acc && |acc| == s - text;
      if c == NUL {
        assert TextFrom(r, x - p, acc, lines) == Lexed(T_TEXT, 0, x - p, acc, lines);
        ptr := x;
      } else if c == '\n' {
        assert TextFrom(r, x - p, acc, lines) == Lexed(T_TEXT, T_NEWLINE, x + 1 - p, acc, lines);
        ptr := x + 1;
        nexttoken := T_NEWLINE;
      } else {
        assert TextFrom(r, x - p, acc, lines) == Lexed(T_TEXT, 0, x + 1 - p, acc, lines);
        ptr := x + 1;
      }
      t := T_TEXT;
    }

    /** One pass of the text loop at x, a character that neither ends the token nor is a NUL. */
    method TextStep(x0: nat, s0: nat, ghost p: nat, ghost r: seq<char>, ghost lines0: nat) returns (x: nat, s: nat, ghost lines: nat, eof: bool)
      requires Ends(r) && p <= text <= s0 <= x0 && p + |r| == buf.Length && x0 < buf.Length
      requires forall k :: x0 <= k < buf.Length ==> buf[k] == r[k - p]
      requires buf[x0] != NUL && !Blank(buf[x0]) && buf[x0] != '\n'
      modifies this`line, buf
      ensures text <= s <= x < buf.Length && x0 < x
      ensures forall k :: x <= k < buf.Length ==> buf[k] == r[k - p]
      ensures forall k :: 0 <= k < text ==> buf[k] == old(buf[k])
      ensures lines >= lines0 && line == old(line) + (lines - lines0)
      ensures !eof ==> TextFrom(r, x0 - p, old(buf[text..s0]), lines0) == TextFrom(r, x - p, buf[text..s], lines)
      ensures eof ==> var l := TextFrom(r, x0 - p, old(buf[text..s0]), lines0);
        l.token == T_EOF && l.next == 0 && x - p == l.consumed && l.lines == lines
    {
      if buf[x0] == '"' {
        x, s, eof := QuotedPass(x0, s0, p, r, lines0);
        lines := lines0;
      } else {
        x, s, lines := UnquotedStep(x0, s0, p, r, lines0);
        eof := false;
      }
    }

    /** A pass of the text loop at a double quote: the quoted part is copied up to its closing quote or the NUL. */
    method QuotedPass(x0: nat, s0: nat, ghost p: nat, ghost r: seq<char>, ghost lines: nat) returns (x: nat, s: nat, eof: bool)
      requires Ends(r) && p <= text <= s0 <= x0 && p + |r| == buf.Length && x0 < buf.Length
      requires forall k :: x0 <= k < buf.Length ==> buf[k] == r[k - p]
      requires buf[x0] == '"'
      modifies buf
      ensures text <= s <= x < buf.Length && x0 < x
      ensures forall k :: x <= k < buf.Length ==> buf[k] == r[k - p]
      ensures forall k :: 0 <= k < text ==> buf[k] == old(buf[k])
      ensures !eof ==> TextFrom(r, x0 - p, old(buf[text..s0]), lines) == TextFrom(r, x - p, buf[text..s], lines)
      ensures eof ==> var l := TextFrom(r, x0 - p, old(buf[text..s0]), lines);
        l.token == T_EOF && l.next == 0 && x - p == l.consumed && l.lines == lines
    {
      ghost var i: nat := x0 - p;
      ghost var acc := buf[text..s0];
      ghost var l := TextFrom(r, i, acc, lines);
      assert l == TextFrom(r, x0 - p, old(buf[text..s0]), lines);
      assert buf[x0] == r[i];
      TextFromQuote(r, i, acc, lines);
      x, s, eof := CopyQuoted(x0 + 1, s0, p, r, i + 1, acc, lines);
    }

    /** A pass of the text loop at a character other than a double quote. */
    method UnquotedStep(x0: nat, s0: nat, ghost p: nat, ghost r: seq<char>, ghost lines0: nat) returns (x: nat, s: nat, ghost lines: nat)
      requires Ends(r) && p <= text <= s0 <= x0 && p + |r| == buf.Length && x0 < buf.Length
      requires forall k :: x0 <= k < buf.Length ==> buf[k] == r[k - p]
      requires buf[x0] != NUL && !Blank(buf[x0]) && buf[x0] != '\n' && buf[x0] != '"'
      modifies this`line, buf
      ensures text <= s <= x < buf.Length && x0 < x
      ensures forall k :: x <= k < buf.Length ==> buf[k] == r[k - p]
      ensures forall k :: 0 <= k < text ==> buf[k] == old(buf[k])
      ensures lines >= lines0 && line == old(line) + (lines - lines0)
      ensures TextFrom(r, x0 - p, old(buf[text..s0]), lines0) == TextFrom(r, x - p, buf[text..s], lines)
    {
      ghost var i: nat := x0 - p;
      assert buf[x0] == r[i];
      if buf[x0] == '\\' {
        TextFromEscape(r, i, buf[text..s0], lines0);
        x, s, lines := ScanEscape(x0 + 1, s0, p, r, i + 1, buf[text..s0], lines0);
      } else {
        x, s := CopyChar(x0, s0, p, r, lines0);
        lines := lines0;
      }
    }

    /** An ordinary character of a token is copied. */
    method CopyChar(x0: nat, s0: nat, ghost p: nat, ghost r: seq<char>, ghost lines: nat) returns (x: nat, s: nat)
      requires Ends(r) && p <= text <= s0 <= x0 && p + |r| == buf.Length && x0 < buf.Length
      requires forall k :: x0 <= k < buf.Length ==> buf[k] == r[k - p]
      requires buf[x0] != NUL && !Blank(buf[x0]) && buf[x0] != '\n' && buf[x0] != '"' && buf[x0] != '\\'
      modifies buf
      ensures text <= s <= x < buf.Length && x == x0 + 1 && s == s0 + 1
      ensures forall k :: x <= k < buf.Length ==> buf[k] == r[k - p]
      ensures forall k :: 0 <= k < text ==> buf[k] == old(buf[k])
      ensures TextFrom(r, x0 - p, old(buf[text..s0]), lines) == TextFrom(r, x - p, buf[text..s], lines)
    {
      var c := buf[x0];
      assert c == r[x0 - p];
      ghost var acc := buf[text..s0];
      assert TextFrom(r, x0 - p, acc, lines) == TextFrom(r, x0 + 1 - p, acc + [c], lines);
      Put(s0, c);
      s, x := s0 + 1, x0 + 1;
    }

    /** The rest of a double-quoted segment from x0, just after its opening quote: copied up to the closing quote. */
    method CopyQuoted(x0: nat, s0: nat, ghost p: nat, ghost r: seq<char>, ghost i0: nat, ghost acc0: string, ghost lines: nat)
        returns (x: nat, s: nat, eof: bool)
      requires Ends(r) && p <= text <= s0 < x0 && p + |r| == buf.Length && x0 < buf.Length && i0 == x0 - p
      requires forall k :: x0 <= k < buf.Length ==> buf[k] == r[k - p]
      requires buf[text..s0] == acc0
      modifies buf
      ensures text <= s < x < buf.Length && x0 <= x
      ensures forall k :: x <= k < buf.Length ==> buf[k] == r[k - p]
      ensures forall k :: 0 <= k < text ==> buf[k] == old(buf[k])
      ensures var l := Quoted(r, i0, acc0, lines);
        if eof then l.token == T_EOF && l.next == 0 && x - p == l.consumed && l.lines == lines else l == TextFrom(r, x - p, buf[text..s], lines)
    {
      x, s := x0, s0;
      ghost var acc := acc0;
      ghost var i: nat := i0;
      while buf[x] != NUL && buf[x] != '"'
        invariant text <= s < x < buf.Length && x0 <= x && i == x - p
        invariant forall k :: x <= k < buf.Length ==> buf[k] == r[k - p]
        invariant forall k :: 0 <= k < text ==> buf[k] == old(buf[k])
        invariant buf[text..s] == acc
        invariant Quoted(r, i0, acc0, lines) == Quoted(r, i, acc, lines)
        decreases buf.Length - x
      {
        ghost var acc' := CopyQuotedChar(x, s, p, r, i, acc, lines);
        assert Quoted(r, i0, acc0, lines) == Quoted(r, i + 1, acc', lines);
        s, x, i, acc := s + 1, x + 1, i + 1, acc';
      }
      assert buf[x] == r[i];
      QuotedEnd(r, i, acc, lines);
      eof := buf[x] == NUL;
      if !eof {
        x := x + 1;
        assert Quoted(r, i0, acc0, lines) == TextFrom(r, i + 1, acc, lines);
      }
    }

    /** One character inside the quotes, copied down to s. */
    method CopyQuotedChar(x: nat, s: nat, ghost p: nat, ghost r: seq<char>, ghost i: nat, ghost acc: string, ghost lines: nat)
        returns (ghost acc': string)
      requires Ends(r) && p <= text <= s < x && p + |r| == buf.Length && x < buf.Length && i == x - p
      requires forall k :: x <= k < buf.Length ==> buf[k] == r[k - p]
      requires buf[text..s] == acc && buf[x] != NUL && buf[x] != '"'
      modifies buf
      ensures x + 1 < buf.Length && buf[text..s + 1] == acc'
      ensures forall k :: x + 1 <= k < buf.Length ==> buf[k] == r[k - p]
      ensures forall k :: 0 <= k < text ==> buf[k] == old(buf[k])
      ensures Quoted(r, i, acc, lines) == Quoted(r, i + 1, acc', lines)
    {
      var c := buf[x];
      assert c == r[i];
      QuotedStep(r, i, acc, lines);
      Put(s, c);
      acc' := acc + [c];
    }

    /** The characters after a backslash, from x0 just past it. */
    method ScanEscape(x0: nat, s0: nat, ghost p: nat, ghost r: seq<char>, ghost i: nat, ghost acc: string, ghost lines0: nat)
        returns (x: nat, s: nat, ghost lines: nat)
      requires Ends(r) && p <= text <= s0 < x0 && p + |r| == buf.Length && x0 < buf.Length && i == x0 - p
      requires forall k :: x0 <= k < buf.Length ==> buf[k] == r[k - p]
      requires buf[text..s0] == acc
      modifies this`line, buf
      ensures text <= s <= x < buf.Length && x0 <= x
      ensures forall k :: x <= k < buf.Length ==> buf[k] == r[k - p]
      ensures forall k :: 0 <= k < text ==> buf[k] == old(buf[k])
      ensures lines >= lines0 && line == old(line) + (lines - lines0)
      ensures Escape(r, i, acc, lines0) == TextFrom(r, x - p, buf[text..s], lines)
    {
      var e := buf[x0];
      assert e == r[i];
      if e == '\r' || e == '\n' || e == NUL {
        x, lines := EscapedLineEnd(x0, p, r, i, acc, lines0);
        s := s0;
        assert buf[text..s] == acc;
      } else {
        x, s := EscapedChar(x0, s0, p, r, i, acc, lines0);
        lines := lines0;
      }
    }

    /** A backslash before an ordinary character, or before n, r, t or a second backslash, which are decoded. */
    method EscapedChar(x0: nat, s0: nat, ghost p: nat, ghost r: seq<char>, ghost i: nat, ghost acc: string, ghost lines: nat)
        returns (x: nat, s: nat)
      requires Ends(r) && p <= text <= s0 < x0 && p + |r| == buf.Length && x0 < buf.Length && i == x0 - p
      requires forall k :: x0 <= k < buf.Length ==> buf[k] == r[k - p]
      requires buf[text..s0] == acc && buf[x0] != '\r' && buf[x0] != '\n' && buf[x0] != NUL
      modifies buf
      ensures text <= s <= x < buf.Length && x0 <= x && s == s0 + 1
      ensures forall k :: x <= k < buf.Length ==> buf[k] == r[k - p]
      ensures forall k :: 0 <= k < text ==> buf[k] == old(buf[k])
      ensures Escape(r, i, acc, lines) == TextFrom(r, x - p, buf[text..s], lines)
    {
      var e := buf[x0];
      assert e == r[i];
      var decoded := e == 'n' || e == 'r' || e == 't' || e == '\\';
      var d := if e == 'n' then '\n' else if e == 'r' then '\r' else if e == 't' then '\t' else e;
      x := if decoded then x0 else x0 + 1;
      assert Escape(r, i, acc, lines) == TextFrom(r, x - p, acc + [d], lines);
      Put(s0, d);
      s := s0 + 1;
    }

    /**
     * A backslash before a line feed continues the token after the next
     * line's leading blanks; before CR LF it counts the line and stops on
     * the LF, which ends the token; a lone CR is dropped; before the NUL the
     * token ends.
     */
    method EscapedLineEnd(x0: nat, ghost p: nat, ghost r: seq<char>, ghost i: nat, ghost acc: string, ghost lines0: nat)
        returns (x: nat, ghost lines: nat)
      requires Ends(r) && p <= text < x0 && p + |r| == buf.Length && x0 < buf.Length && i == x0 - p
      requires forall k :: x0 <= k < buf.Length ==> buf[k] == r[k - p]
      requires buf[x0] == '\r' || buf[x0] == '\n' || buf[x0] == NUL
      modifies this`line
      ensures x0 <= x < buf.Length
      ensures lines >= lines0 && line == old(line) + (lines - lines0)
      ensures Escape(r, i, acc, lines0) == TextFrom(r, x - p, acc, lines)
    {
      x, lines := x0, lines0;
      var e := buf[x];
      assert e == r[i];
      if e == '\r' && buf[x + 1] != '\n' {
        assert buf[x + 1] == r[i + 1];
        x := x + 1;
      } else if e != NUL {
        assert e == '\r' ==> buf[x + 1] == r[i + 1];
        line := line + 1;
        lines := lines + 1;
        x := SkipBlankRun(x + 1, p, r);
      }
    }

    /** The spaces and tabs that start a continued line. */
    method SkipBlankRun(x0: nat, ghost p: nat, ghost r: seq<char>) returns (x: nat)
      requires Ends(r) && p <= x0 < buf.Length && p + |r| == buf.Length
      requires forall k :: x0 <= k < buf.Length ==> buf[k] == r[k - p]
      ensures x0 <= x < buf.Length && x - p == SkipBlanks(r, x0 - p)
    {
      x := x0;
      while buf[x] == ' ' || buf[x] == '\t'
        invariant x0 <= x < buf.Length
        invariant SkipBlanks(r, x - p) == SkipBlanks(r, x0 - p)
        decreases buf.Length - x
      {
        x := x + 1;
      }
    }
  }

  // ---------------------------------------------------------------------
  // The driver

  lemma KeptSnoc(words: seq<string>, w: string, n: nat)
    ensures Kept(words + [w], n) == if |words| < n then Kept(words, n) + [w] else Kept(words, n)
  {
    if |words| >= n {
      assert (words + [w])[..n] == words[..n];
    }
  }

  /**
   * The word w is still the C string at index a of the text, and ends before
   * the parse position (or at it, when the position holds the final NUL), so
   * that the next_token calls still to come never write over it.
   */
  ghost predicate Holds(b: seq<char>, a: nat, w: string, ptr: nat)
  {
    a + |w| < |b| && b[a..a + |w|] == w && b[a + |w|] == NUL && NoNul(w) &&
    (a + |w| < ptr || (a + |w| == ptr && b[ptr] == NUL))
  }

  /** A next_token call keeps every word held so far. */
  lemma ArgKept(b: seq<char>, b': seq<char>, a: nat, w: string, p: nat, p': nat)
    requires |b| == |b'| && p <= p' < |b| && Holds(b, a, w, p)
    requires forall k :: 0 <= k < p ==> b'[k] == b[k]
    requires forall k :: p' <= k < |b| ==> b'[k] == b[k]
    requires b[p] == NUL ==> p' == p
    ensures Holds(b', a, w, p')
  {
    assert b'[a..a + |w|] == b[a..a + |w|];
  }

  lemma AllKept(b: seq<char>, b': seq<char>, args: seq<nat>, words: seq<string>, p: nat, p': nat)
    requires |b| == |b'| && p <= p' < |b| && |args| == |words|
    requires forall i :: 0 <= i < |args| ==> Holds(b, args[i], words[i], p)
    requires b'[..p] == b[..p] && b'[p'..] == b[p'..]
    requires b[p] == NUL ==> p' == p
    ensures forall i :: 0 <= i < |args| ==> Holds(b', args[i], words[i], p')
  {
    assert forall k :: 0 <= k < p ==> b'[k] == b'[..p][k] == b[k];
    assert forall k :: p' <= k < |b| ==> b'[k] == b'[p'..][k - p'] == b[k];
    forall i | 0 <= i < |args|
      ensures Holds(b', args[i], words[i], p')
    {
      ArgKept(b, b', args[i], words[i], p, p');
    }
  }

  /** The held indices read back as the held words. */
  lemma HeldArgs(b: seq<char>, args: seq<nat>, words: seq<string>, p: nat)
    requires |b| > 0 && b[|b| - 1] == NUL && |args| == |words|
    requires forall i :: 0 <= i < |args| ==> Holds(b, args[i], words[i], p)
    ensures forall i :: 0 <= i < |args| ==> args[i] < |b|
    ensures ArgStrings(b, args) == words
  {
    forall i | 0 <= i < |args|
      ensures CStr(b, args[i]) == words[i]
    {
      CStrAt(b, args[i], words[i]);
    }
  }

  /** A call on text that starts with its NUL moves nowhere. */
  lemma LexAtNul(r: seq<char>, next: nat)
    requires Ends(r) && r[0] == NUL
    ensures Lex(r, next).consumed == 0
  {
  }

  /** The C strings at the held indices: the arguments parse_line is handed. */
  function ArgStrings(b: seq<char>, args: seq<nat>): (r: seq<string>)
    requires |b| > 0 && b[|b| - 1] == NUL
    requires forall i :: 0 <= i < |args| ==> args[i] < |b|
    ensures |r| == |args| && forall i :: 0 <= i < |args| ==> r[i] == CStr(b, args[i])
  {
    seq(|args|, i requires 0 <= i < |args| => CStr(b, args[i]))
  }

  /**
   * Between two next_token calls of module_parser: the tokens handed out so
   * far followed by those still to come are the file's tokens, and the
   * arguments kept for the current line are held in the text.
   */
  ghost predicate Reading(st: ParseState, whole: seq<Token>, seen: seq<Token>, args: seq<nat>, words: seq<string>, n: nat)
    reads st, st.buf
  {
    st.Valid() && seen + Tokens(st.buf[st.ptr..], st.nexttoken) == whole &&
    words == Kept(Pending(seen), n) && |args| == |words| &&
    forall i :: 0 <= i < |args| ==> Holds(st.buf[..], args[i], words[i], st.ptr)
  }

  /** The token a next_token result stands for in the token stream. */
  function TokenOf(l: Lexed): Token
  {
    if l.token == T_TEXT then Word(l.text) else Newline
  }

  /** The token stream, one next_token call at a time. */
  lemma TokensUnfold(r: seq<char>, next: nat)
    requires Ends(r) && (next == 0 || next == T_NEWLINE)
    ensures var l := Lex(r, next);
      l.consumed < |r| && (l.next == 0 || l.next == T_NEWLINE) &&
      Tokens(r, next) == if l.token == T_EOF then [] else [TokenOf(l)] + Tokens(r[l.consumed..], l.next)
  {
  }

  /**
   * One next_token call of module_parser: the token is the next one of the
   * file's token stream, a text token is held in the text, and the text
   * changes only between the old and the new parse position.
   */
  method Advance(st: ParseState, ghost whole: seq<Token>, ghost seen: seq<Token>)
      returns (t: nat, ghost l: Lexed, ghost b: seq<char>, ghost p: nat)
    requires st.Valid() && seen + Tokens(st.buf[st.ptr..], st.nexttoken) == whole
    modifies st`ptr, st`text, st`line, st`nexttoken, st.buf
    ensures st.Valid() && t == l.token && NoNul(l.text) && (t == T_EOF || t == T_TEXT || t == T_NEWLINE)
    ensures b == old(st.buf[..]) && p == old(st.ptr) && p <= st.ptr < |b| == st.buf.Length
    ensures st.buf[..][..p] == b[..p] && st.buf[..][st.ptr..] == b[st.ptr..] && (b[p] == NUL ==> st.ptr == p)
    ensures t == T_EOF ==> seen == whole
    ensures t != T_EOF ==> seen + [TokenOf(l)] + Tokens(st.buf[st.ptr..], st.nexttoken) == whole
    ensures t == T_TEXT ==> Holds(st.buf[..], st.text, l.text, st.ptr)
    ensures t != T_EOF ==> old(st.ptr) < st.ptr || (st.ptr == old(st.ptr) && st.nexttoken < old(st.nexttoken))
  {
    b := st.buf[..];
    p := st.ptr;
    ghost var rest := st.buf[st.ptr..];
    ghost var nx := st.nexttoken;
    t, l := st.NextToken();
    DropDrop(b, p, l.consumed);
    StreamStep(rest, nx, seen, whole, st.buf[st.ptr..]);
    if b[p] == NUL {
      assert rest[0] == b[p];
      LexAtNul(rest, nx);
    }
  }

  /** The tokens seen, the one next_token returns and those after it are still the whole stream. */
  lemma StreamStep(rest: seq<char>, next: nat, seen: seq<Token>, whole: seq<Token>, after: seq<char>)
    requires Ends(rest) && (next == 0 || next == T_NEWLINE) && seen + Tokens(rest, next) == whole
    requires Lex(rest, next).consumed < |rest| && after == rest[Lex(rest, next).consumed..]
    ensures var l := Lex(rest, next);
      Ends(after) && (l.next == 0 || l.next == T_NEWLINE) &&
      (l.token == T_EOF ==> seen == whole) &&
      (l.token != T_EOF ==> seen + [TokenOf(l)] + Tokens(after, l.next) == whole)
  {
    var l := Lex(rest, next);
    TokensUnfold(rest, next);
    if l.token != T_EOF {
      Assoc(seen, [TokenOf(l)], Tokens(rest[l.consumed..], l.next));
    }
  }

  /** module_parser at T_NEWLINE: a line with arguments goes to the line rule, and a new line starts. */
  method EndLine(st: ParseState, mode: int, head: ModuleList, args: seq<nat>,
                 ghost seen: seq<Token>, ghost words: seq<string>, ghost base: seq<ModuleNode>)
    requires st.Valid()
    requires words == Kept(Pending(seen), ArgsToRead(mode)) && |args| == |words|
    requires forall i :: 0 <= i < |args| ==> Holds(st.buf[..], args[i], words[i], st.ptr)
    requires head.nodes == base + NodesOf(mode, Lines(seen))
    modifies head
    ensures head.nodes == base + NodesOf(mode, Lines(seen + [Newline]))
    ensures Kept(Pending(seen + [Newline]), ArgsToRead(mode)) == []
  {
    NewlineEndsLine(seen);
    NodesOfSnoc(mode, Lines(seen), Pending(seen));
    if |args| > 0 {
      var ws := ArgStrings(st.buf[..], args);
      HeldArgs(st.buf[..], args, words, st.ptr);
      var node := RuleFor(mode, ws);
      if node.Some? {
        head.nodes := head.nodes + [node.value];
      }
    }
  }

  /** module_parser at T_TEXT: the word is kept while the line has fewer arguments than the rule reads. */
  method AddWord(st: ParseState, n: nat, args: seq<nat>, ghost w: string, ghost seen: seq<Token>, ghost words: seq<string>)
      returns (args': seq<nat>, ghost words': seq<string>)
    requires st.Valid() && words == Kept(Pending(seen), n) && |args| == |words|
    requires forall i :: 0 <= i < |args| ==> Holds(st.buf[..], args[i], words[i], st.ptr)
    requires Holds(st.buf[..], st.text, w, st.ptr)
    ensures Lines(seen + [Word(w)]) == Lines(seen)
    ensures words' == Kept(Pending(seen + [Word(w)]), n) && |args'| == |words'|
    ensures forall i :: 0 <= i < |args'| ==> Holds(st.buf[..], args'[i], words'[i], st.ptr)
    ensures |args| < n ==> args' == args + [st.text]
    ensures |args| >= n ==> args' == args
  {
    UnterminatedLineDropped(seen, w);
    KeptSnoc(Pending(seen), w, n);
    args', words' := args, words;
    if |args| < n {
      args' := args + [st.text];
      words' := words + [w];
    }
  }

  /**
   * module_parser: loads the file, tokenises it and hands each line's first
   * arguments to the mode's line rule, which appends a node to the list.
   * An unknown mode, an empty file name (for which asprintf returns 0) and a
   * file that cannot be loaded give -1 and leave the list as it was.
   */
  method ModuleParser(fileName: string, mode: int, file: Option<string>, head: ModuleList) returns (ret: int)
    modifies head
    ensures mode != READ_MODULES_ALIAS && mode != READ_MODULES_BLKLST ==> ret == -1
    ensures (mode == READ_MODULES_ALIAS || mode == READ_MODULES_BLKLST) && fileName != [] && file.Some? ==> ret == 0
    ensures ret == 0 ==> file.Some? && head.nodes == old(head.nodes) + ParsedNodes(mode, file.value)
    ensures ret != 0 ==> ret == -1 && head.nodes == old(head.nodes)
  {
    if mode != READ_MODULES_ALIAS && mode != READ_MODULES_BLKLST {
      return -1;
    }
    if fileName == [] || file.None? {
      return -1;
    }
    var data := file.value;
    var st := new ParseState(data);
    var n := ArgsToRead(mode);
    var args: seq<nat> := [];
    ghost var seen: seq<Token> := [];
    ghost var words: seq<string> := [];
    var done := false;
    ghost var whole := Tokens(data + [NUL], 0);
    assert st.buf[st.ptr..] == data + [NUL];
    while !done
      invariant fresh(st) && fresh(st.buf)
      invariant !done ==> Reading(st, whole, seen, args, words, n)
      invariant done ==> seen == whole
      invariant head.nodes == old(head.nodes) + NodesOf(mode, Lines(seen))
      decreases !done, st.buf.Length - st.ptr, st.nexttoken
    {
      var t;
      ghost var l, b, p;
      t, l, b, p := Advance(st, whole, seen);
      if t == T_EOF {
        done := true;
      } else {
        AllKept(b, st.buf[..], args, words, p, st.ptr);
        if t == T_NEWLINE {
          EndLine(st, mode, head, args, seen, words, old(head.nodes));
          args, words := [], [];
        } else {
          args, words := AddWord(st, n, args, l.text, seen, words);
        }
        seen := seen + [TokenOf(l)];
      }
    }
    ret := 0;
  }

  method ParseAliasToList(fileName: string, file: Option<string>, head: ModuleList) returns (ret: int)
    modifies head
    ensures fileName != [] && file.Some? ==> ret == 0
    ensures ret == 0 ==> file.Some? && head.nodes == old(head.nodes) + ParsedNodes(READ_MODULES_ALIAS, file.value)
    ensures ret != 0 ==> ret == -1 && head.nodes == old(head.nodes)
  {
    ret := ModuleParser(fileName, READ_MODULES_ALIAS, file, head);
  }

  method ParseBlacklistToList(fileName: string, file: Option<string>, head: ModuleList) returns (ret: int)
    modifies head
    ensures fileName != [] && file.Some? ==> ret == 0
    ensures ret == 0 ==> file.Some? && head.nodes == old(head.nodes) + ParsedNodes(READ_MODULES_BLKLST, file.value)
    ensures ret != 0 ==> ret == -1 && head.nodes == old(head.nodes)
  {
    ret := ModuleParser(fileName, READ_MODULES_BLKLST, file, head);
  }

  // ---------------------------------------------------------------------
  // Lookups over the lists

  /** An entry of the alias map whose pattern matches the device id. */
  predicate MatchesId(a: ModuleNode, id: string)
  {
    a.AliasNode? && a.pattern.Some? && Glob(a.pattern.value, id)
  }

  /** The entries get_module_name_from_alias adds for id: the name of each alias whose pattern matches, in list order. */
  function AliasesOf(id: string, list: seq<ModuleNode>): (r: seq<ModuleNode>)
    ensures |r| <= |list|
  {
    if list == [] then []
    else
      var a := list[|list| - 1];
      AliasesOf(id, list[..|list| - 1]) + (if MatchesId(a, id) then [AliasNode(a.name, None)] else [])
  }

  /** Every added entry is a bare module name, with no pattern. */
  lemma {:induction false} AliasesOfBare(id: string, list: seq<ModuleNode>)
    ensures forall e :: e in AliasesOf(id, list) ==> e.AliasNode? && e.pattern.None?
    decreases |list|
  {
    if list != [] {
      AliasesOfBare(id, list[..|list| - 1]);
    }
  }

  /** A name is added exactly when some entry with that name has a pattern matching id. */
  lemma AliasesOfNames(id: string, list: seq<ModuleNode>, name: string)
    ensures AliasNode(name, None) in AliasesOf(id, list) <==>
      exists i :: 0 <= i < |list| && list[i].name == name && MatchesId(list[i], id)
  {
    if AliasNode(name, None) in AliasesOf(id, list) {
      AliasesOfSound(id, list, name);
    } else {
      AliasesOfComplete(id, list, name);
    }
  }

  /** Every name added comes from an entry whose pattern matches id. */
  lemma {:induction false} AliasesOfSound(id: string, list: seq<ModuleNode>, name: string)
    requires AliasNode(name, None) in AliasesOf(id, list)
    ensures exists i :: 0 <= i < |list| && list[i].name == name && MatchesId(list[i], id)
    decreases |list|
  {
    var init := list[..|list| - 1];
    var last := |list| - 1;
    var added := if MatchesId(list[last], id) then [AliasNode(list[last].name, None)] else [];
    assert AliasesOf(id, list) == AliasesOf(id, init) + added;
    if AliasNode(name, None) in AliasesOf(id, init) {
      AliasesOfSound(id, init, name);
      var i :| 0 <= i < |init| && init[i].name == name && MatchesId(init[i], id);
      assert list[i] == init[i];
    } else {
      assert AliasNode(name, None) in added;
      assert list[last].name == name && MatchesId(list[last], id);
    }
  }

  /** The name of every entry whose pattern matches id is added. */
  lemma {:induction false} AliasesOfComplete(id: string, list: seq<ModuleNode>, name: string)
    ensures (exists i :: 0 <= i < |list| && list[i].name == name && MatchesId(list[i], id)) ==>
      AliasNode(name, None) in AliasesOf(id, list)
    decreases |list|
  {
    if exists i :: 0 <= i < |list| && list[i].name == name && MatchesId(list[i], id) {
      var i :| 0 <= i < |list| && list[i].name == name && MatchesId(list[i], id);
      var init := list[..|list| - 1];
      var last := |list| - 1;
      var added := if MatchesId(list[last], id) then [AliasNode(list[last].name, None)] else [];
      assert AliasesOf(id, list) == AliasesOf(id, init) + added;
      if i < last {
        assert init[i] == list[i];
        AliasesOfComplete(id, init, name);
      } else {
        assert AliasNode(name, None) in added;
      }
    }
  }

  /**
   * get_module_name_from_alias: for a NULL id -1 and nothing added; otherwise
   * the matches are appended to the output list and their number returned.
   */
  method GetModuleNameFromAlias(id: Option<string>, out: ModuleList, aliasList: seq<ModuleNode>) returns (num: int)
    modifies out
    ensures id.None? ==> num == -1 && out.nodes == old(out.nodes)
    ensures id.Some? ==> num == |AliasesOf(id.value, aliasList)| && out.nodes == old(out.nodes) + AliasesOf(id.value, aliasList)
  {
    if id.None? {
      return -1;
    }
    num := 0;
    var i := 0;
    while i < |aliasList|
      invariant 0 <= i <= |aliasList|
      invariant num == |AliasesOf(id.value, aliasList[..i])|
      invariant out.nodes == old(out.nodes) + AliasesOf(id.value, aliasList[..i])
    {
      var a := aliasList[i];
      assert aliasList[..i + 1][..i] == aliasList[..i];
      if MatchesId(a, id.value) {
        out.nodes := out.nodes + [AliasNode(a.name, None)];
        num := num + 1;
      }
      i := i + 1;
    }
    assert aliasList[..i] == aliasList;
  }

  /** A list entry carries the name. */
  predicate Listed(name: string, list: seq<ModuleNode>)
  {
    exists i :: 0 <= i < |list| && list[i].name == name
  }

  /** is_module_blacklisted: 1 exactly when a name is given and an entry of the list carries it. */
  method IsModuleBlacklisted(name: Option<string>, list: seq<ModuleNode>) returns (ret: int)
    ensures ret == 1 <==> name.Some? && Listed(name.value, list)
    ensures ret == 0 || ret == 1
  {
    ret := 0;
    if name.None? {
      return;
    }
    var i := 0;
    while i < |list|
      invariant 0 <= i <= |list|
      invariant forall j :: 0 <= j < i ==> list[j].name != name.value
    {
      if list[i].name == name.value {
        return 1;
      }
      i := i + 1;
    }
  }

  /** The token stream after one next_token call that returned the text w. */
  lemma {:induction false} TokensAfterWord(r: seq<char>, next: nat, w: string, n: nat, next': nat)
    requires Ends(r) && (next == 0 || next == T_NEWLINE)
    requires Lex(r, next) == Lexed(T_TEXT, next', n, w, 0)
    ensures n < |r| && Tokens(r, next) == [Word(w)] + Tokens(r[n..], next')
  {
    TokensUnfold(r, next);
  }

  /** A plain word and a space, then the rest. */
  lemma {:induction false} WordThenSpaceTokens(w: string, rest: seq<char>)
    requires PlainWord(w) && Ends(rest)
    ensures Tokens(w + " " + rest, 0) == [Word(w)] + Tokens(rest, 0)
  {
    var r := w + " " + rest;
    PlainWordThenSpace(w, rest);
    TokensAfterWord(r, 0, w, |w| + 1, 0);
    assert r[|w| + 1..] == rest;
  }

  /** A plain word and a newline, then the rest. */
  lemma {:induction false} WordThenNewlineTokens(w: string, rest: seq<char>)
    requires PlainWord(w) && Ends(rest)
    ensures Tokens(w + "\n" + rest, 0) == [Word(w), Newline] + Tokens(rest, 0)
  {
    var r := w + "\n" + rest;
    PlainWordThenNewline(w, rest);
    TokensAfterWord(r, 0, w, |w| + 1, T_NEWLINE);
    assert r[|w| + 1..] == rest;
    TokensUnfold(rest, T_NEWLINE);
    assert rest[0..] == rest;
  }

  /** Two plain words and a newline give two word tokens and a newline token. */
  lemma {:induction false} TwoWordLine(a: string, b: string, rest: seq<char>)
    requires PlainWord(a) && PlainWord(b) && Ends(rest)
    ensures Tokens(a + " " + b + "\n" + rest, 0) == [Word(a), Word(b), Newline] + Tokens(rest, 0)
  {
    var tail := b + "\n" + rest;
    assert a + " " + tail == a + " " + b + "\n" + rest;
    WordThenSpaceTokens(a, tail);
    WordThenNewlineTokens(b, rest);
  }

  /** A plain word and a space in front of text whose tokens start with line. */
  lemma {:induction false} WordBeforeLine(a: string, tail: seq<char>, line: seq<Token>, rest: seq<char>)
    requires PlainWord(a) && Ends(tail) && Ends(rest)
    requires Tokens(tail, 0) == line + Tokens(rest, 0)
    ensures Tokens(a + " " + tail, 0) == ([Word(a)] + line) + Tokens(rest, 0)
  {
    WordThenSpaceTokens(a, tail);
  }

  /** Three plain words and a newline give three word tokens and a newline token. */
  lemma {:induction false} ThreeWordLine(a: string, b: string, c: string, rest: seq<char>)
    requires PlainWord(a) && PlainWord(b) && PlainWord(c) && Ends(rest)
    ensures Tokens(a + " " + b + " " + c + "\n" + rest, 0) == [Word(a), Word(b), Word(c), Newline] + Tokens(rest, 0)
  {
    var tail := b + " " + c + "\n" + rest;
    assert a + " " + tail == a + " " + b + " " + c + "\n" + rest;
    assert tail[|tail| - 1] == rest[|rest| - 1];
    TwoWordLine(b, c, rest);
    WordBeforeLine(a, tail, [Word(b), Word(c), Newline], rest);
    assert [Word(a)] + [Word(b), Word(c), Newline] == [Word(a), Word(b), Word(c), Newline];
  }

  /** The words of one newline-ended line make one line. */
  lemma {:induction false} OneLine(ws: seq<string>)
    ensures Lines(Words(ws) + [Newline]) == [ws]
  {
    WordsPending(ws);
    NewlineEndsLine(Words(ws));
    WordsNoLines(ws);
  }

  function Words(ws: seq<string>): (toks: seq<Token>)
    ensures |toks| == |ws|
  {
    if ws == [] then [] else Words(ws[..|ws| - 1]) + [Word(ws[|ws| - 1])]
  }

  lemma {:induction false} WordsPending(ws: seq<string>)
    ensures Pending(Words(ws)) == ws
  {
    if ws != [] {
      WordsPending(ws[..|ws| - 1]);
      UnterminatedLineDropped(Words(ws[..|ws| - 1]), ws[|ws| - 1]);
    }
  }

  lemma {:induction false} WordsNoLines(ws: seq<string>)
    ensures Lines(Words(ws)) == []
  {
    if ws != [] {
      WordsNoLines(ws[..|ws| - 1]);
      UnterminatedLineDropped(Words(ws[..|ws| - 1]), ws[|ws| - 1]);
    }
  }

  /** A file holding the one line "blacklist m" puts m, and only m, on the blacklist. */
  lemma {:induction false} BlacklistFileParsed(m: string)
    requires PlainWord(m)
    ensures ParsedNodes(READ_MODULES_BLKLST, "blacklist " + m + "\n") == [BlackNode(m)]
  {
    var data := "blacklist " + m + "\n";
    var ws := ["blacklist", m];
    assert PlainWord("blacklist");
    assert data + [NUL] == "blacklist" + " " + m + "\n" + [NUL];
    TwoWordLine("blacklist", m, [NUL]);
    LexAtNul([NUL], 0);
    assert Tokens([NUL], 0) == [];
    assert Words(ws) == [Word("blacklist"), Word(m)] by {
      assert ws[..1] == ["blacklist"];
      assert ["blacklist"][..0] == [];
    }
    assert Tokens(data + [NUL], 0) == Words(ws) + [Newline];
    OneLine(ws);
    assert StartsWith(ws[0], "blacklist");
    BlacklistLine(ws);
  }

  /** A one-line modules.alias file "alias pat name" maps the pattern to the module name. */
  lemma {:induction false} AliasFileParsed(pat: string, name: string)
    requires PlainWord(pat) && PlainWord(name)
    ensures ParsedNodes(READ_MODULES_ALIAS, "alias " + pat + " " + name + "\n") == [AliasNode(name, Some(pat))]
  {
    var data := "alias " + pat + " " + name + "\n";
    var ws := ["alias", pat, name];
    assert PlainWord("alias");
    assert data + [NUL] == "alias" + " " + pat + " " + name + "\n" + [NUL];
    ThreeWordLine("alias", pat, name, [NUL]);
    LexAtNul([NUL], 0);
    assert Tokens([NUL], 0) == [];
    assert Words(ws) == [Word("alias"), Word(pat), Word(name)] by {
      assert ws[..2] == ["alias", pat];
      assert Words(["alias", pat]) == [Word("alias"), Word(pat)] by {
        assert ["alias", pat][..1] == ["alias"];
        assert ["alias"][..0] == [];
      }
    }
    assert Tokens(data + [NUL], 0) == Words(ws) + [Newline];
    OneLine(ws);
    AliasLineAccepted(ws);
  }

  /** The end-to-end lookup: after parsing "alias pat name", a device id matching pat resolves to name. */
  lemma {:induction false} AliasResolves(pat: string, name: string, id: string)
    requires PlainWord(pat) && PlainWord(name) && Glob(pat, id)
    ensures AliasesOf(id, ParsedNodes(READ_MODULES_ALIAS, "alias " + pat + " " + name + "\n")) == [AliasNode(name, None)]
  {
    AliasFileParsed(pat, name);
    assert [AliasNode(name, Some(pat))][..0] == [];
  }

  /** A module named on a blacklist line is reported as blacklisted. */
  lemma {:induction false} BlacklistedAfterParse(m: string)
    requires PlainWord(m)
    ensures Listed(m, ParsedNodes(READ_MODULES_BLKLST, "blacklist " + m + "\n"))
  {
    BlacklistFileParsed(m);
    assert ParsedNodes(READ_MODULES_BLKLST, "blacklist " + m + "\n")[0].name == m;
  }
}
