/**
 * BcContainer.ParseCommand: splits a command line into arguments on
 * unquoted spaces. Double quotes open and close quoted sections and are
 * dropped; a backslash is kept and makes the next quote unable to close a
 * section.
 */
module Command {
  import opened Wrappers
  import opened Strings

  /** The tokenizer's state: the finished tokens, the token being built, and the two flags. */
  datatype Scan = Scan(tokens: seq<string>, current: string, quoted: bool, escaped: bool)

  /** The effect of one input character on the state. */
  function Step(st: Scan, c: char): (r: Scan)
    ensures c == '"' ==> r.quoted == (!st.quoted || st.escaped)
  {
    if c == '\\' then st.(current := st.current + [c], escaped := true)
    else if c == '"' then st.(quoted := !(st.quoted && !st.escaped), escaped := false)
    else if c == ' ' && !st.quoted then st.(tokens := st.tokens + [st.current], current := "")
    else st.(current := st.current + [c], escaped := false)
  }

  /** The state after reading all of s from the start. */
  function Run(s: string): Scan
  {
    if s == [] then Scan([], "", false, false)
    else Step(Run(s[..|s| - 1]), s[|s| - 1])
  }

  /** The tokens produced for s: the finished ones and the last one. */
  function Tokens(s: string): seq<string>
  {
    Run(s).tokens + [Run(s).current]
  }

  /** Whether the character c, read after p, ends up in a token. */
  predicate Copied(p: string, c: char)
  {
    c != '"' && (c != ' ' || Run(p).quoted)
  }

  /** The characters of s that are kept: no quotes, no token-ending spaces, in input order. */
  function Kept(s: string): string
  {
    if s == [] then []
    else Kept(s[..|s| - 1]) + (if Copied(s[..|s| - 1], s[|s| - 1]) then [s[|s| - 1]] else [])
  }

  /** The number of spaces that end a token: those read outside a quoted section. */
  function UnquotedSpaces(s: string): nat
  {
    if s == [] then 0
    else UnquotedSpaces(s[..|s| - 1]) + (if s[|s| - 1] == ' ' && !Run(s[..|s| - 1]).quoted then 1 else 0)
  }

  /** All tokens concatenated. */
  function Flatten(ts: seq<string>): string
  {
    if ts == [] then [] else ts[0] + Flatten(ts[1..])
  }

  /** What ParseCommand yields, or the exception it ends with. */
  function Parse(s: string): Outcome<seq<string>>
  {
    if Run(s).quoted then Fail(ArgumentException) else Ok(Tokens(s))
  }

  /**
   * BcContainer.ParseCommand: the character loop with its two flags and
   * its token builder. Input that ends inside a quoted section fails with
   * ArgumentException.
   */
  method ParseCommand(command: string) returns (r: Outcome<seq<string>>)
    ensures r.Fail? <==> Run(command).quoted
    ensures r.Fail? ==> r.error == ArgumentException
    ensures r.Ok? ==> r.value == Tokens(command)
  {
    var tokens: seq<string> := [];
    var builder := "";
    var quoted, escaped := false, false;
    for i := 0 to |command|
      invariant Run(command[..i]) == Scan(tokens, builder, quoted, escaped)
    {
      var c := command[i];
      assert command[..i + 1][..i] == command[..i];
      if c == '\\' {
        escaped := true;
      } else if c == '"' {
        if quoted && !escaped {
          quoted := false;
        } else {
          quoted := true;
        }
      } else if c == ' ' && !quoted {
        tokens := tokens + [builder];
        builder := "";
        continue;
      }
      if escaped && c != '\\' {
        escaped := false;
      }
      if c != '"' || escaped {
        builder := builder + [c];
      }
    }
    assert command[..|command|] == command;
    if quoted {
      return Fail(ArgumentException);
    }
    return Ok(tokens + [builder]);
  }

  // ---------------------------------------------------------------------
  // Properties

  /** Empty input gives one empty token. */
  lemma ParseEmpty()
    ensures Parse("") == Ok([""])
  {
    assert Run("") == Scan([], "", false, false);
    assert !Run("").quoted;
    assert Tokens("") == [""];
    assert Parse("") == Ok(Tokens(""));
  }

  /** Reading one more character: the state before it is the state of the prefix. */
  lemma RunSnoc(p: string, c: char)
    ensures Run(p + [c]) == Step(Run(p), c)
    ensures Kept(p + [c]) == Kept(p) + (if Copied(p, c) then [c] else [])
    ensures UnquotedSpaces(p + [c]) == UnquotedSpaces(p) + (if c == ' ' && !Run(p).quoted then 1 else 0)
  {
    assert (p + [c])[..|p|] == p;
  }

  /** Each unquoted space ends one token, so there is one token more than such spaces. */
  lemma {:induction false} TokenCount(s: string)
    ensures |Tokens(s)| == 1 + UnquotedSpaces(s)
    decreases |s|
  {
    if s != [] {
      var p := s[..|s| - 1];
      assert s == p + [s[|s| - 1]];
      RunSnoc(p, s[|s| - 1]);
      TokenCount(p);
    }
  }

  /** A double quote is never copied into a token. */
  lemma {:induction false} NoQuoteInTokens(s: string)
    ensures forall k :: 0 <= k < |Tokens(s)| ==> '"' !in Tokens(s)[k]
    decreases |s|
  {
    if s != [] {
      var p := s[..|s| - 1];
      assert s == p + [s[|s| - 1]];
      RunSnoc(p, s[|s| - 1]);
      NoQuoteInTokens(p);
      assert forall k :: 0 <= k < |Run(p).tokens| ==> Run(p).tokens[k] == Tokens(p)[k];
      assert Run(p).current == Tokens(p)[|Tokens(p)| - 1];
    }
  }

  lemma {:induction false} FlattenSnoc(ts: seq<string>, t: string)
    ensures Flatten(ts + [t]) == Flatten(ts) + t
    decreases |ts|
  {
    if ts != [] {
      assert (ts + [t])[1..] == ts[1..] + [t];
      FlattenSnoc(ts[1..], t);
    }
  }

  /**
   * The tokens together hold exactly the kept characters in input order:
   * every character except quotes and token-ending spaces, so backslashes
   * and spaces inside quotes are copied.
   */
  lemma {:induction false} TokensKeepText(s: string)
    ensures Flatten(Tokens(s)) == Kept(s)
    decreases |s|
  {
    if s != [] {
      var p := s[..|s| - 1];
      var c := s[|s| - 1];
      assert s == p + [c];
      RunSnoc(p, c);
      TokensKeepText(p);
      var st := Run(p);
      FlattenSnoc(st.tokens, st.current);
      if c == ' ' && !st.quoted {
        FlattenSnoc(st.tokens + [st.current], "");
      } else {
        FlattenSnoc(st.tokens, Run(s).current);
      }
    }
  }

  /** A quote after a backslash does not close a quoted section; outside one it opens one. */
  lemma EscapedQuoteKeepsQuoted(p: string)
    requires Run(p).escaped || !Run(p).quoted
    ensures Run(p + ['"']).quoted
  {
    RunSnoc(p, '"');
  }

  /** An unescaped quote inside a quoted section closes it. */
  lemma QuoteCloses(p: string)
    requires Run(p).quoted && !Run(p).escaped
    ensures !Run(p + ['"']).quoted
  {
    RunSnoc(p, '"');
  }

  /** A space inside a quoted section goes into the current token. */
  lemma QuotedSpaceKept(p: string)
    requires Run(p).quoted
    ensures Tokens(p + [' ']) == Run(p).tokens + [Run(p).current + " "]
  {
    RunSnoc(p, ' ');
  }

  /** Without quotes, no section is ever open, the tokens have no space and they join back to the input. */
  lemma PlainTokensJoin(s: string)
    requires '"' !in s
    ensures !Run(s).quoted
    ensures Join(Tokens(s), ' ') == s
    ensures forall k :: 0 <= k < |Tokens(s)| ==> NoneOf(Tokens(s)[k], {' '})
  {
    PlainNotQuoted(s);
    PlainJoin(s);
    PlainNoSpaces(s);
  }

  lemma {:induction false} PlainNotQuoted(s: string)
    requires '"' !in s
    ensures !Run(s).quoted
    decreases |s|
  {
    if s != [] {
      var p := s[..|s| - 1];
      assert s == p + [s[|s| - 1]];
      RunSnoc(p, s[|s| - 1]);
      PlainNotQuoted(p);
    }
  }

  /** The last token grows by one character, or a space starts a new empty one. */
  lemma JoinLastStep(ts: seq<string>, cur: string, c: char)
    ensures Join(ts + [cur + [c]], ' ') == Join(ts + [cur], ' ') + [c]
    ensures Join(ts + [cur] + [""], ' ') == Join(ts + [cur], ' ') + [' ']
  {
    if ts != [] {
      JoinSnoc(ts, cur, ' ');
      JoinSnoc(ts, cur + [c], ' ');
    }
    JoinSnoc(ts + [cur], "", ' ');
  }

  lemma {:induction false} PlainJoin(s: string)
    requires '"' !in s
    ensures Join(Tokens(s), ' ') == s
    decreases |s|
  {
    if s != [] {
      var p := s[..|s| - 1];
      var c := s[|s| - 1];
      assert s == p + [c];
      RunSnoc(p, c);
      PlainNotQuoted(p);
      PlainJoin(p);
      JoinLastStep(Run(p).tokens, Run(p).current, c);
    }
  }

  lemma {:induction false} PlainNoSpaces(s: string)
    requires '"' !in s
    ensures forall k :: 0 <= k < |Tokens(s)| ==> NoneOf(Tokens(s)[k], {' '})
    decreases |s|
  {
    if s != [] {
      var p := s[..|s| - 1];
      var c := s[|s| - 1];
      assert s == p + [c];
      RunSnoc(p, c);
      PlainNotQuoted(p);
      PlainNoSpaces(p);
      var st := Run(p);
      assert forall k :: 0 <= k < |st.tokens| ==> st.tokens[k] == Tokens(p)[k];
      assert st.current == Tokens(p)[|Tokens(p)| - 1];
    }
  }

  /** Without quotes, ParseCommand is String.Split on the space character. */
  lemma PlainIsSplit(s: string)
    requires '"' !in s
    ensures Parse(s) == Ok(Split(s, {' '}))
  {
    PlainTokensJoin(s);
    SplitJoin(Tokens(s), ' ', {' '});
  }
}
