/**
 Quoting of identifiers that cannot be bound as placeholders
 (backend/internal/repository/routineload_repository.go:114-119), and the reader it is the inverse of:
 a backtick, then characters in which a doubled backtick stands for one, then a closing backtick.
 */
module Identifier {
  import opened Wrappers

  const TICK := '`'

  function Escape(name: string): string {
    if name == "" then ""
    else if name[0] == TICK then [TICK, TICK] + Escape(name[1..])
    else [name[0]] + Escape(name[1..])
  }

  function Quote(name: string): string {
    [TICK] + Escape(name) + [TICK]
  }

  /** A name and the text that follows its closing backtick. */
  datatype Token = Token(name: string, rest: string)

  function Read(text: string): Option<Token> {
    if text == "" || text[0] != TICK then None else ReadBody(text[1..])
  }

  function ReadBody(text: string): Option<Token>
    decreases |text|
  {
    if text == "" then None
    else if text[0] != TICK then Prepend(text[0], ReadBody(text[1..]))
    else if |text| > 1 && text[1] == TICK then Prepend(TICK, ReadBody(text[2..]))
    else Some(Token("", text[1..]))
  }

  function Prepend(c: char, token: Option<Token>): Option<Token> {
    if token.None? then None else Some(Token([c] + token.value.name, token.value.rest))
  }

  lemma ReadOne(c: char, text: string)
    requires c != TICK
    ensures ReadBody([c] + text) == Prepend(c, ReadBody(text))
  {
    assert ([c] + text)[1..] == text;
  }

  lemma ReadTwo(text: string)
    ensures ReadBody([TICK, TICK] + text) == Prepend(TICK, ReadBody(text))
  {
    assert ([TICK, TICK] + text)[2..] == text;
  }

  lemma ReadEnd(suffix: string)
    requires suffix == "" || suffix[0] != TICK
    ensures ReadBody([TICK] + suffix) == Some(Token("", suffix))
  {
    assert ([TICK] + suffix)[1..] == suffix;
  }

  lemma Regroup(a: string, b: string, c: string)
    ensures a + b + c == a + (b + c)
  {
  }

  lemma {:induction false} ReadEscaped(name: string, suffix: string)
    requires suffix == "" || suffix[0] != TICK
    ensures ReadBody(Escape(name) + ([TICK] + suffix)) == Some(Token(name, suffix))
    decreases |name|
  {
    var closing := [TICK] + suffix;
    if name == "" {
      ReadEnd(suffix);
      assert Escape(name) + closing == closing;
    } else {
      var tail := Escape(name[1..]) + closing;
      ReadEscaped(name[1..], suffix);
      assert [name[0]] + name[1..] == name;
      if name[0] == TICK {
        Regroup([TICK, TICK], Escape(name[1..]), closing);
        ReadTwo(tail);
      } else {
        Regroup([name[0]], Escape(name[1..]), closing);
        ReadOne(name[0], tail);
      }
    }
  }

  /** Between the outer backticks every character stands for itself, in order, and a backtick is written twice. */
  lemma EscapeIs(a: string, c: char, b: string)
    ensures Escape(a + [c] + b) == Escape(a) + (if c == TICK then "``" else [c]) + Escape(b)
    decreases |a|
  {
    if a == "" {
      assert a + [c] + b == [c] + b && ([c] + b)[1..] == b;
    } else {
      EscapeIs(a[1..], c, b);
      assert (a + [c] + b)[0] == a[0] && (a + [c] + b)[1..] == a[1..] + [c] + b;
      EscapeRegroup(Escape([a[0]]), Escape(a[1..]), if c == TICK then "``" else [c], Escape(b));
      EscapeFirst(a);
      EscapeFirst(a + [c] + b);
    }
  }

  lemma EscapeFirst(s: string)
    requires s != ""
    ensures Escape(s) == Escape([s[0]]) + Escape(s[1..])
  {
    assert [s[0]][1..] == "";
  }

  lemma EscapeRegroup(a: string, b: string, c: string, d: string)
    ensures a + (b + c + d) == a + b + c + d
  {
  }

  /** Reading back a quoted name gives the name, and consumes exactly the quoted text. */
  lemma ReadQuoted(name: string, suffix: string)
    requires suffix == "" || suffix[0] != TICK
    ensures Read(Quote(name) + suffix) == Some(Token(name, suffix))
  {
    ReadEscaped(name, suffix);
    QuoteOpens(name, suffix);
  }

  lemma QuoteOpens(name: string, suffix: string)
    ensures Quote(name) + suffix == [TICK] + (Escape(name) + ([TICK] + suffix))
    ensures (Quote(name) + suffix)[1..] == Escape(name) + ([TICK] + suffix)
  {
    assert Quote(name) + suffix == [TICK] + (Escape(name) + ([TICK] + suffix));
  }

  lemma EscapeMore(c: char, name: string)
    ensures Escape([c] + name) == (if c == TICK then [TICK, TICK] else [c]) + Escape(name)
  {
    assert ([c] + name)[1..] == name;
  }

  lemma ReadsFirst(text: string)
    requires ReadBody(text).Some? && (text[0] != TICK || (|text| > 1 && text[1] == TICK))
    ensures var n := if text[0] != TICK then 1 else 2;
            && ReadBody(text[n..]).Some?
            && ReadBody(text).value == Token([text[0]] + ReadBody(text[n..]).value.name, ReadBody(text[n..]).value.rest)
            && text == (if text[0] == TICK then [TICK, TICK] else [text[0]]) + text[n..]
  {
  }

  /** The reader accepts nothing else: whatever it reads was a quoted name and a rest that does not start with a backtick. */
  lemma {:induction false} ReadBodyIsEscaped(text: string)
    requires ReadBody(text).Some?
    ensures var token := ReadBody(text).value;
            && text == Escape(token.name) + ([TICK] + token.rest)
            && (token.rest == "" || token.rest[0] != TICK)
    decreases |text|
  {
    if text[0] != TICK || (|text| > 1 && text[1] == TICK) {
      var n := if text[0] != TICK then 1 else 2;
      ReadsFirst(text);
      ReadBodyIsEscaped(text[n..]);
      var rest := ReadBody(text[n..]).value;
      EscapeMore(text[0], rest.name);
      Regroup(if text[0] == TICK then [TICK, TICK] else [text[0]], Escape(rest.name), [TICK] + rest.rest);
    } else {
      assert text == [TICK] + text[1..];
    }
  }

  lemma ReadIffQuoted(text: string, token: Token)
    ensures Read(text) == Some(token) <==>
            text == Quote(token.name) + token.rest && (token.rest == "" || token.rest[0] != TICK)
  {
    if Read(text).Some? {
      var read := Read(text).value;
      ReadBodyIsEscaped(text[1..]);
      QuoteOpens(read.name, read.rest);
      assert text == [TICK] + text[1..];
    }
    if text == Quote(token.name) + token.rest && (token.rest == "" || token.rest[0] != TICK) {
      ReadQuoted(token.name, token.rest);
    }
  }

  /** Two names never quote alike, even with different text after them. */
  lemma QuoteInjective(a: string, s: string, b: string, t: string)
    requires s == "" || s[0] != TICK
    requires t == "" || t[0] != TICK
    requires Quote(a) + s == Quote(b) + t
    ensures a == b && s == t
  {
    ReadQuoted(a, s);
    ReadQuoted(b, t);
  }
}
