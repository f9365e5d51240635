/**
 Validation of worksheet statements (backend/internal/service/query_service.go): trimming, the first
 keyword behind comments, the read-only policy and the row clamp. Text is ASCII.
 */
module QueryService {
  import opened Wrappers
  import opened ResultCursor
  import opened QuerySession
  import opened Text

  const READ_ONLY_KEYWORDS := {"select", "with", "show", "desc", "describe", "explain"}

  predicate IsSpace(c: char) {
    c in " \t\n\r" || c as int == 11 || c as int == 12
  }

  predicate IsWordChar(c: char) {
    'a' <= c <= 'z' || 'A' <= c <= 'Z' || '0' <= c <= '9' || c == '_'
  }

  // ----- Trimming -----

  predicate InCutset(c: char) {
    c in "; \t\r\n"
  }

  function TrimLeft(s: string): string {
    if s != "" && IsSpace(s[0]) then TrimLeft(s[1..]) else s
  }

  function TrimRight(s: string, cut: char -> bool): string {
    if s != "" && cut(s[|s| - 1]) then TrimRight(s[..|s| - 1], cut) else s
  }

  function TrimSpace(s: string): string {
    TrimRight(TrimLeft(s), IsSpace)
  }

  function CleanStatement(raw: string): string {
    TrimRight(TrimSpace(raw), InCutset)
  }

  lemma {:induction false} TrimRightDrops(s: string, cut: char -> bool)
    ensures var kept := TrimRight(s, cut);
            && kept <= s
            && (kept != "" ==> !cut(kept[|kept| - 1]))
            && (forall i :: |kept| <= i < |s| ==> cut(s[i]))
  {
    if s != "" && cut(s[|s| - 1]) {
      TrimRightDrops(s[..|s| - 1], cut);
    }
  }

  lemma {:induction false} TrimLeftStart(s: string)
    ensures TrimLeft(s) != "" ==> !IsSpace(TrimLeft(s)[0])
    ensures s != "" && !IsSpace(s[0]) ==> TrimLeft(s) == s
  {
    if s != "" && IsSpace(s[0]) {
      TrimLeftStart(s[1..]);
    }
  }

  predicate AllBlank(s: string) {
    forall i :: 0 <= i < |s| ==> IsSpace(s[i]) || s[i] == ';'
  }

  lemma {:induction false} LeftSplits(s: string) returns (before: string)
    ensures s == before + TrimLeft(s) && AllBlank(before)
  {
    if s != "" && IsSpace(s[0]) {
      var rest := LeftSplits(s[1..]);
      before := [s[0]] + rest;
      Regroup([s[0]], rest, TrimLeft(s));
      assert s == [s[0]] + s[1..];
    } else {
      before := "";
    }
  }

  lemma RightSplits(s: string, cut: char -> bool) returns (after: string)
    requires forall c :: cut(c) ==> IsSpace(c) || c == ';'
    ensures s == TrimRight(s, cut) + after && AllBlank(after)
  {
    TrimRightDrops(s, cut);
    var kept := TrimRight(s, cut);
    after := s[|kept|..];
    assert forall i :: 0 <= i < |after| ==> after[i] == s[|kept| + i];
  }

  lemma BlankAppend(a: string, b: string)
    requires AllBlank(a) && AllBlank(b)
    ensures AllBlank(a + b)
  {
  }

  /**
   What cleaning leaves stands in the statement as it was, with nothing but white space and semicolons
   around it, and neither begins with white space nor ends with a blank, a tab, a line end or a semicolon.
   */
  lemma CleanIsCore(raw: string) returns (before: string, after: string)
    ensures raw == before + CleanStatement(raw) + after && AllBlank(before) && AllBlank(after)
    ensures var clean := CleanStatement(raw);
            clean != "" ==> !IsSpace(clean[0]) && clean[|clean| - 1] !in "; \t\r\n"
  {
    before := LeftSplits(raw);
    var outer := RightSplits(TrimLeft(raw), IsSpace);
    var inner := RightSplits(TrimSpace(raw), InCutset);
    after := inner + outer;
    BlankAppend(inner, outer);
    Regroup(CleanStatement(raw), inner, outer);
    Regroup(before, CleanStatement(raw), after);
    CleanEnds(raw);
  }

  lemma CleanEnds(raw: string)
    ensures var clean := CleanStatement(raw);
            clean != "" ==> !IsSpace(clean[0]) && clean[|clean| - 1] !in "; \t\r\n"
  {
    TrimLeftStart(raw);
    TrimRightDrops(TrimLeft(raw), IsSpace);
    TrimRightDrops(TrimSpace(raw), InCutset);
  }

  /** Vertical tab and form feed: white space to the first trim, but not in the cutset of the second. */
  predicate OddSpace(c: char) {
    IsSpace(c) && !InCutset(c)
  }

  predicate SpaceOrSemicolon(c: char) {
    IsSpace(c) || c == ';'
  }

  /** A vertical tab or form feed is among the white space and semicolons that end the text. */
  predicate OddEnding(text: string) {
    exists i :: |TrimRight(text, SpaceOrSemicolon)| <= i < |text| && OddSpace(text[i])
  }

  lemma OddEndingSurvives(text: string)
    ensures var clean := TrimRight(text, InCutset);
            OddEnding(text) <==> clean != "" && OddSpace(clean[|clean| - 1])
  {
    var core, clean := TrimRight(text, SpaceOrSemicolon), TrimRight(text, InCutset);
    TrimRightDrops(text, InCutset);
    TrimRightDrops(text, SpaceOrSemicolon);
    if clean != "" && OddSpace(clean[|clean| - 1]) {
      assert OddSpace(text[|clean| - 1]) && |core| <= |clean| - 1;
    }
  }

  /**
   Cleaning a statement twice is not always the same as cleaning it once: it is exactly when no
   vertical tab or form feed is among the white space and semicolons that end the trimmed statement.
   */
  lemma CleanTwice(raw: string)
    ensures CleanStatement(CleanStatement(raw)) == CleanStatement(raw) <==> !OddEnding(TrimSpace(raw))
  {
    CleanAgain(raw);
    OddEndingSurvives(TrimSpace(raw));
  }

  lemma CleanAgain(raw: string)
    ensures CleanStatement(CleanStatement(raw)) == CleanStatement(raw) <==>
            var clean := CleanStatement(raw);
            clean == "" || !OddSpace(clean[|clean| - 1])
  {
    var clean := CleanStatement(raw);
    TrimLeftStart(raw);
    TrimRightDrops(TrimLeft(raw), IsSpace);
    TrimRightDrops(TrimSpace(raw), InCutset);
    if clean != "" {
      TrimLeftStart(clean);
      assert clean[0] == TrimSpace(raw)[0] == TrimLeft(raw)[0];
      TrimRightDrops(clean, IsSpace);
      TrimRightDrops(TrimSpace(clean), InCutset);
    }
  }

  /** A statement that cleaning changes twice over: a letter, a vertical tab, a semicolon. */
  lemma CleanTwiceDiffers()
    ensures exists raw :: CleanStatement(CleanStatement(raw)) != CleanStatement(raw)
  {
    var raw := ['a', 11 as char, ';'];
    var clean := raw[..2];
    assert TrimLeft(raw) == raw == TrimSpace(raw);
    assert TrimRight(clean, InCutset) == clean;
    assert CleanStatement(raw) == TrimRight(raw[..|raw| - 1], InCutset) == clean;
    CleanAgain(raw);
  }

  // ----- The first keyword -----

  predicate StartsLine(s: string) {
    |s| >= 2 && s[0] == '-' && s[1] == '-'
  }

  predicate StartsBlock(s: string) {
    |s| >= 2 && s[0] == '/' && s[1] == '*'
  }

  predicate ClosesAt(s: string, i: int) {
    0 <= i && i + 1 < |s| && s[i] == '*' && s[i + 1] == '/'
  }

  /** The first newline, or -1. */
  function IndexOfNewline(s: string): (i: int)
    ensures -1 <= i < |s|
    ensures i >= 0 ==> s[i] == '\n'
    ensures forall j :: 0 <= j < |s| && s[j] == '\n' ==> 0 <= i <= j
  {
    if s == "" then -1
    else if s[0] == '\n' then 0
    else
      var i := IndexOfNewline(s[1..]);
      if i < 0 then -1 else i + 1
  }

  /** The first closing mark of a block comment, or -1. */
  function IndexOfClose(s: string): (i: int)
    ensures i == -1 || ClosesAt(s, i)
    ensures forall j :: ClosesAt(s, j) ==> 0 <= i <= j
  {
    if s == "" then -1
    else if ClosesAt(s, 0) then 0
    else
      var i := IndexOfClose(s[1..]);
      assert forall j :: ClosesAt(s, j) ==> ClosesAt(s[1..], j - 1);
      if i < 0 then -1 else i + 1
  }

  /** The text behind leading white space and comments; nothing if a comment does not end. */
  function SkipTrivia(s: string): Option<string>
    decreases |s|
  {
    if s == "" then Some(s)
    else if IsSpace(s[0]) then SkipTrivia(s[1..])
    else if StartsLine(s) then
      var i := IndexOfNewline(s);
      if i < 0 then None else SkipTrivia(s[i + 1..])
    else if StartsBlock(s) then
      var i := IndexOfClose(s);
      if i < 0 then None else SkipTrivia(s[i + 2..])
    else Some(s)
  }

  function Word(s: string): string {
    if s != "" && IsWordChar(s[0]) then [s[0]] + Word(s[1..]) else ""
  }

  function FirstKeywordOf(statement: string): string {
    var rest := SkipTrivia(statement);
    if rest.None? then "" else ToLower(Word(rest.value))
  }

  lemma {:induction false} SkipAfterTrim(s: string)
    ensures SkipTrivia(TrimLeft(s)) == SkipTrivia(s)
    ensures |TrimLeft(s)| <= |s|
  {
    if s != "" && IsSpace(s[0]) {
      SkipAfterTrim(s[1..]);
    }
  }

  method FirstKeyword(statement: string) returns (keyword: string)
    ensures keyword == FirstKeywordOf(statement)
  {
    var rest := statement;
    while true
      invariant SkipTrivia(rest) == SkipTrivia(statement)
      decreases |rest|
    {
      SkipAfterTrim(rest);
      TrimLeftStart(rest);
      rest := TrimLeft(rest);
      if StartsLine(rest) {
        var i := IndexOfNewline(rest);
        if i < 0 {
          return "";
        }
        rest := rest[i + 1..];
        continue;
      }
      if StartsBlock(rest) {
        var i := IndexOfClose(rest);
        if i < 0 {
          return "";
        }
        rest := rest[i + 2..];
        continue;
      }
      break;
    }
    var end := IndexOfNonWord(rest);
    return ToLower(rest[..end]);
  }

  method IndexOfNonWord(s: string) returns (end: nat)
    ensures end <= |s| && s[..end] == Word(s)
  {
    end := 0;
    while end < |s| && IsWordChar(s[end])
      invariant end <= |s|
      invariant Word(s) == s[..end] + Word(s[end..])
    {
      assert s[end..][1..] == s[end + 1..];
      assert s[..end + 1] == s[..end] + [s[end]];
      Regroup(s[..end], [s[end]], Word(s[end + 1..]));
      end := end + 1;
    }
  }

  // ----- Trivia in front changes nothing -----

  /** One piece of trivia. A block is any text from its opening to the first closing mark in it, "/" + "*" + "/" included. */
  datatype Trivia = Space(c: char) | Line(body: string) | Block(text: string) {
    predicate WellFormed() {
      match this
      case Space(c) => IsSpace(c)
      case Line(body) => '\n' !in body
      case Block(text) => StartsBlock(text) && IndexOfClose(text) == |text| - 2
    }

    function Text(): string {
      match this
      case Space(c) => [c]
      case Line(body) => "--" + body + "\n"
      case Block(text) => text
    }
  }

  function TextOf(trivia: seq<Trivia>): string {
    if trivia == [] then "" else trivia[0].Text() + TextOf(trivia[1..])
  }

  ghost predicate AllWellFormed(trivia: seq<Trivia>) {
    forall i :: 0 <= i < |trivia| ==> trivia[i].WellFormed()
  }

  lemma SkipLine(body: string, rest: string)
    requires '\n' !in body
    ensures SkipTrivia(Line(body).Text() + rest) == SkipTrivia(rest)
  {
    var s := Line(body).Text() + rest;
    assert StartsLine(s) && s[|body| + 2] == '\n';
    assert forall j :: 2 <= j < |body| + 2 ==> s[j] == body[j - 2];
    assert IndexOfNewline(s) >= |body| + 2;
    assert s[|body| + 3..] == rest;
  }

  /** What follows a block does not move its first end mark. */
  lemma FirstCloseStays(text: string, rest: string)
    requires StartsBlock(text) && IndexOfClose(text) == |text| - 2
    ensures IndexOfClose(text + rest) == |text| - 2
  {
    var s := text + rest;
    assert ClosesAt(text, |text| - 2);
    assert s[|text| - 2] == text[|text| - 2] && s[|text| - 1] == text[|text| - 1];
    assert ClosesAt(s, |text| - 2);
    var i := IndexOfClose(s);
    assert 0 <= i <= |text| - 2 && ClosesAt(s, i);
    assert s[i] == text[i] && s[i + 1] == text[i + 1];
    assert ClosesAt(text, i);
  }

  lemma SkipOne(t: Trivia, rest: string)
    requires t.WellFormed()
    ensures SkipTrivia(t.Text() + rest) == SkipTrivia(rest)
  {
    var s := t.Text() + rest;
    match t
    case Space(c) =>
      assert s[1..] == rest;
    case Line(body) =>
      SkipLine(body, rest);
    case Block(text) =>
      FirstCloseStays(text, rest);
      assert StartsBlock(s) && s[|text|..] == rest;
  }

  lemma {:induction false} SkipAll(trivia: seq<Trivia>, rest: string)
    requires AllWellFormed(trivia)
    ensures SkipTrivia(TextOf(trivia) + rest) == SkipTrivia(rest)
    decreases |trivia|
  {
    if trivia == [] {
      assert TextOf(trivia) + rest == rest;
    } else {
      assert TextOf(trivia) + rest == trivia[0].Text() + (TextOf(trivia[1..]) + rest);
      SkipOne(trivia[0], TextOf(trivia[1..]) + rest);
      SkipAll(trivia[1..], rest);
    }
  }

  /** White space and complete comments in front of a statement leave its first keyword as it was. */
  lemma TriviaIsInvisible(trivia: seq<Trivia>, statement: string)
    requires AllWellFormed(trivia)
    ensures FirstKeywordOf(TextOf(trivia) + statement) == FirstKeywordOf(statement)
  {
    SkipAll(trivia, statement);
  }

  /** In particular a blank, tab, line end, vertical tab or form feed, a whole line comment, and a block comment up to its end mark. */
  lemma EachTriviaIsInvisible(c: char, text: string, statement: string)
    requires c in " \t\n\r" || c as int == 11 || c as int == 12
    ensures FirstKeywordOf([c] + statement) == FirstKeywordOf(statement)
    ensures '\n' !in text ==> FirstKeywordOf(("--" + text + "\n") + statement) == FirstKeywordOf(statement)
    ensures (forall i :: 0 <= i < |text| - 1 ==> !(text[i] == '*' && text[i + 1] == '/')) && (text == "" || text[0] != '/')
            ==> FirstKeywordOf(("/*" + text + "*/") + statement) == FirstKeywordOf(statement)
  {
    SkipOne(Space(c), statement);
    if '\n' !in text {
      SkipOne(Line(text), statement);
    }
    var block := "/*" + text + "*/";
    if (forall i :: 0 <= i < |text| - 1 ==> !(text[i] == '*' && text[i + 1] == '/')) && (text == "" || text[0] != '/') {
      OneClosing(text);
      SkipOne(Block(block), statement);
    }
  }

  lemma OneClosing(text: string)
    requires forall i :: 0 <= i < |text| - 1 ==> !(text[i] == '*' && text[i + 1] == '/')
    requires text == "" || text[0] != '/'
    ensures var block := "/*" + text + "*/"; StartsBlock(block) && IndexOfClose(block) == |block| - 2
  {
    var block := "/*" + text + "*/";
    assert forall i :: 0 <= i < |text| ==> block[i + 2] == text[i];
    assert block[|text| + 2] == '*' && block[|text| + 3] == '/';
    assert ClosesAt(block, |text| + 2);
    assert forall j :: 0 <= j < |text| + 2 ==> !ClosesAt(block, j);
  }

  predicate StartsTrivia(s: string) {
    s != "" && (IsSpace(s[0]) || StartsLine(s) || StartsBlock(s))
  }

  /** The text is trivia followed by the rest. */
  ghost predicate TriviaBefore(s: string, rest: string) {
    exists trivia :: AllWellFormed(trivia) && s == TextOf(trivia) + rest
  }

  lemma OneMoreBefore(t: Trivia, s: string, rest: string)
    requires t.WellFormed() && TriviaBefore(s, rest)
    ensures TriviaBefore(t.Text() + s, rest)
  {
    var trivia :| AllWellFormed(trivia) && s == TextOf(trivia) + rest;
    Prepended(t, trivia, rest);
  }

  lemma NoneBefore(s: string)
    ensures TriviaBefore(s, s)
  {
    assert AllWellFormed([]) && s == TextOf([]) + s;
  }

  lemma SplitFirst(s: string, t: Trivia) returns (rest: string)
    requires t.WellFormed() && t.Text() != "" && t.Text() <= s
    ensures s == t.Text() + rest && |rest| < |s| && SkipTrivia(s) == SkipTrivia(rest)
  {
    rest := s[|t.Text()|..];
    SkipOne(t, rest);
  }

  /** And nothing else is skipped: what is dropped from the front is well-formed trivia, all of it. */
  lemma {:induction false} SkippedIsTrivia(s: string)
    requires SkipTrivia(s).Some?
    ensures !StartsTrivia(SkipTrivia(s).value)
    ensures TriviaBefore(s, SkipTrivia(s).value)
    decreases |s|
  {
    if StartsTrivia(s) {
      var t := FirstTrivia(s);
      var rest := SplitFirst(s, t);
      SkippedIsTrivia(rest);
      OneMoreBefore(t, rest, SkipTrivia(rest).value);
    } else {
      NoneBefore(s);
    }
  }

  lemma Prepended(t: Trivia, trivia: seq<Trivia>, rest: string)
    requires t.WellFormed() && AllWellFormed(trivia)
    ensures AllWellFormed([t] + trivia)
    ensures t.Text() + (TextOf(trivia) + rest) == TextOf([t] + trivia) + rest
  {
    assert ([t] + trivia)[1..] == trivia;
    assert TextOf([t] + trivia) == t.Text() + TextOf(trivia);
    Regroup(t.Text(), TextOf(trivia), rest);
  }

  lemma Regroup(a: string, b: string, c: string)
    ensures a + (b + c) == (a + b) + c
  {
  }

  lemma FirstTrivia(s: string) returns (t: Trivia)
    requires StartsTrivia(s) && SkipTrivia(s).Some?
    ensures t.WellFormed() && t.Text() != "" && t.Text() <= s
  {
    if IsSpace(s[0]) {
      t := Space(s[0]);
    } else if StartsLine(s) {
      var i := IndexOfNewline(s);
      t := Line(s[2..i]);
      assert forall j :: 0 <= j < i - 2 ==> t.body[j] == s[j + 2];
      assert t.Text() == s[..i + 1];
    } else {
      var i := IndexOfClose(s);
      t := Block(s[..i + 2]);
      assert i >= 1 && ClosesAt(t.text, i);
      assert forall j :: ClosesAt(t.text, j) ==> ClosesAt(s, j);
    }
  }

  // ----- Block comments as the language closes them -----

  /** Skipping as above, except that the closing mark of a block is looked for behind its opening mark. */
  function SkipComments(s: string): Option<string>
    decreases |s|
  {
    if s == "" then Some(s)
    else if IsSpace(s[0]) then SkipComments(s[1..])
    else if StartsLine(s) then
      var i := IndexOfNewline(s);
      if i < 0 then None else SkipComments(s[i + 1..])
    else if StartsBlock(s) then
      var i := IndexOfClose(s[2..]);
      if i < 0 then None else SkipComments(s[i + 4..])
    else Some(s)
  }

  /** The first word of the statement as the language reads it. */
  function StatementKeyword(statement: string): string {
    var rest := SkipComments(statement);
    if rest.None? then "" else ToLower(Word(rest.value))
  }

  /** A block comment whose third character is a slash: its opening mark already looks closed. */
  predicate OverlapsItself(s: string) {
    StartsBlock(s) && |s| > 2 && s[2] == '/'
  }

  /** What stands behind the first such opening among the leading trivia, if there is one. */
  function BehindOverlap(s: string): Option<string>
    decreases |s|
  {
    if s == "" then None
    else if IsSpace(s[0]) then BehindOverlap(s[1..])
    else if StartsLine(s) then
      var i := IndexOfNewline(s);
      if i < 0 then None else BehindOverlap(s[i + 1..])
    else if StartsBlock(s) then
      if OverlapsItself(s) then Some(s[3..])
      else
        var i := IndexOfClose(s);
        if i < 0 then None else BehindOverlap(s[i + 2..])
    else None
  }

  /** The code is past the comment; the language is still inside it, up to the next closing mark. */
  function RestOfComment(behind: string): Option<string> {
    var i := IndexOfClose(behind);
    if i < 0 then None else SkipComments(behind[i + 2..])
  }

  lemma CloseBehindOpening(s: string)
    requires StartsBlock(s) && !OverlapsItself(s)
    ensures IndexOfClose(s) == if IndexOfClose(s[2..]) < 0 then -1 else IndexOfClose(s[2..]) + 2
  {
    assert forall j :: j >= 2 ==> (ClosesAt(s, j) <==> ClosesAt(s[2..], j - 2));
    assert !ClosesAt(s, 0) && !ClosesAt(s, 1);
    if IndexOfClose(s[2..]) >= 0 {
      assert ClosesAt(s, IndexOfClose(s[2..]) + 2);
    }
  }

  lemma OverlapSkips(s: string)
    requires OverlapsItself(s)
    ensures SkipTrivia(s) == SkipTrivia(s[3..])
    ensures SkipComments(s) == RestOfComment(s[3..])
  {
    assert ClosesAt(s, 1);
    assert IndexOfClose(s) == 1;
    assert s[2..][1..] == s[3..] && !ClosesAt(s[2..], 0);
    var i := IndexOfClose(s[3..]);
    assert IndexOfClose(s[2..]) == if i < 0 then -1 else i + 1;
    if i >= 0 {
      assert s[3..][i + 2..] == s[i + 5..];
    }
  }

  /**
   The code and the language skip alike exactly when no leading block comment overlaps itself, or when
   what the code goes on to skip behind the first that does ends where the language's comment lets it end.
   */
  lemma {:induction false} SkipsAlikeIff(s: string)
    ensures SkipTrivia(s) == SkipComments(s) <==>
            var behind := BehindOverlap(s);
            behind.None? || SkipTrivia(behind.value) == RestOfComment(behind.value)
    decreases |s|
  {
    if s == "" {
    } else if IsSpace(s[0]) {
      SkipsAlikeIff(s[1..]);
    } else if StartsLine(s) {
      if IndexOfNewline(s) >= 0 {
        SkipsAlikeIff(s[IndexOfNewline(s) + 1..]);
      }
    } else if OverlapsItself(s) {
      OverlapSkips(s);
    } else if StartsBlock(s) {
      CloseBehindOpening(s);
      if IndexOfClose(s) >= 0 {
        SkipsAlikeIff(s[IndexOfClose(s) + 2..]);
      }
    }
  }

  lemma {:induction false} SkipShortens(s: string)
    ensures SkipComments(s).Some? ==> |SkipComments(s).value| <= |s|
    decreases |s|
  {
    if s != "" {
      if IsSpace(s[0]) {
        SkipShortens(s[1..]);
      } else if StartsLine(s) {
        if IndexOfNewline(s) >= 0 {
          SkipShortens(s[IndexOfNewline(s) + 1..]);
        }
      } else if StartsBlock(s) && IndexOfClose(s[2..]) >= 0 {
        SkipShortens(s[IndexOfClose(s[2..]) + 4..]);
      }
    }
  }

  /** In particular they never do when the code stops inside the comment, before its closing mark. */
  lemma StoppingInsideMisreads(s: string)
    requires BehindOverlap(s).Some? && SkipTrivia(BehindOverlap(s).value).Some?
    requires var behind := BehindOverlap(s).value;
             IndexOfClose(behind) < 0 || |SkipTrivia(behind).value| > |behind| - IndexOfClose(behind) - 2
    ensures SkipTrivia(s) != SkipComments(s)
  {
    var behind := BehindOverlap(s).value;
    SkipsAlikeIff(s);
    if IndexOfClose(behind) >= 0 {
      SkipShortens(behind[IndexOfClose(behind) + 2..]);
    }
  }

  /**
   Where everything up to that closing mark is trivia to the code too, they meet behind it and agree
   exactly when they do from there on.
   */
  lemma SkipsMeet(s: string, trivia: seq<Trivia>)
    requires BehindOverlap(s).Some? && IndexOfClose(BehindOverlap(s).value) >= 0 && AllWellFormed(trivia)
    requires var behind := BehindOverlap(s).value; TextOf(trivia) == behind[..IndexOfClose(behind) + 2]
    ensures var behind := BehindOverlap(s).value;
            var rest := behind[IndexOfClose(behind) + 2..];
            SkipTrivia(s) == SkipComments(s) <==> SkipTrivia(rest) == SkipComments(rest)
  {
    var behind := BehindOverlap(s).value;
    SkipsAlikeIff(s);
    SkipPrefix(behind, IndexOfClose(behind) + 2, trivia);
  }

  lemma SkipPrefix(s: string, n: nat, trivia: seq<Trivia>)
    requires n <= |s| && AllWellFormed(trivia) && TextOf(trivia) == s[..n]
    ensures SkipTrivia(s) == SkipTrivia(s[n..])
  {
    SkipAll(trivia, s[n..]);
    assert s == s[..n] + s[n..];
  }

  /** Where no leading block comment overlaps itself, the guard judges the word the language reads. */
  lemma GuardJudgesTheStatement(policy: Policy, statement: string)
    requires BehindOverlap(statement).None?
    ensures FirstKeywordOf(statement) == StatementKeyword(statement)
    ensures Permits(policy, statement) <==> (policy.readOnly ==> StatementKeyword(statement) in READ_ONLY_KEYWORDS)
  {
    SkipsAlikeIff(statement);
  }

  /** Where one does, the guard can judge a word inside the comment instead, whatever statement follows it. */
  lemma OverlapHidesTheStatement(word: string, tail: string)
    requires forall i :: 0 <= i < |word| ==> IsWordChar(word[i])
    ensures var statement := "/*/" + (word + ("*/" + tail));
            && StatementKeyword(statement) == StatementKeyword(tail)
            && FirstKeywordOf(statement) == ToLower(word)
  {
    var behind := word + ("*/" + tail);
    var statement := "/*/" + behind;
    assert OverlapsItself(statement) && statement[3..] == behind;
    OverlapSkips(statement);
    assert ("*/" + tail)[0] == '*' && ("*/" + tail)[1] == '/';
    FirstCloseBehind(word, "*/" + tail);
    assert behind[|word| + 2..] == tail;
    WordEnds(word, "*/" + tail);
    assert !StartsTrivia(behind);
  }

  lemma FirstCloseBehind(word: string, closing: string)
    requires forall i :: 0 <= i < |word| ==> IsWordChar(word[i])
    requires ClosesAt(closing, 0)
    ensures IndexOfClose(word + closing) == |word|
  {
    var behind := word + closing;
    assert behind[|word|] == closing[0] && behind[|word| + 1] == closing[1];
    assert ClosesAt(behind, |word|);
    assert forall j :: 0 <= j < |word| ==> behind[j] == word[j];
  }

  lemma {:induction false} WordEnds(w: string, tail: string)
    requires forall i :: 0 <= i < |w| ==> IsWordChar(w[i])
    requires tail == "" || !IsWordChar(tail[0])
    ensures Word(w + tail) == w
  {
    if w == "" {
      assert w + tail == tail;
    } else {
      assert (w + tail)[1..] == w[1..] + tail;
      WordEnds(w[1..], tail);
    }
  }

  // ----- Execution -----

  datatype Policy = Policy(readOnly: bool, maxRows: int)

  /** A policy without a positive cap gets the default one. */
  function NewPolicy(readOnly: bool, maxRows: int): (policy: Policy)
    ensures policy.maxRows > 0 && policy.readOnly == readOnly
    ensures maxRows > 0 ==> policy.maxRows == maxRows
  {
    Policy(readOnly, if maxRows <= 0 then 1000 else maxRows)
  }

  datatype Answer =
    | Empty
    | Blocked(keyword: string)
    | Failed(error: ExecError)
    | Answered(resultSet: ResultSet, rowCount: nat, cap: nat, statement: string)

  /** The read-only policy lets this text through. */
  predicate Permits(policy: Policy, text: string) {
    policy.readOnly ==> FirstKeywordOf(text) in READ_ONLY_KEYWORDS
  }

  function Clamp(policy: Policy, requested: int): int {
    if requested <= 0 || requested > policy.maxRows then policy.maxRows else requested
  }

  /**
   The repository is reached, on a connection of its own, exactly when something is left after
   trimming and the policy permits it. Then the statement runs once, in the wanted database, unless
   that could not be selected; the first rows up to the clamp come back, truncated exactly when there
   are more; and it fails exactly when something goes wrong within those reads.
   `s` is what the server does with the text it is sent.
   */
  method Execute(policy: Policy, repository: QueryRepository, conn: Connection, sql: string, s: Statement,
                 database: string, requested: int)
    returns (answer: Answer)
    requires policy.maxRows > 0
    requires s.text == CleanStatement(sql)
    requires conn.session == repository.defaultDatabase && !conn.bad
    modifies conn
    ensures answer.Empty? <==> CleanStatement(sql) == ""
    ensures answer.Blocked? <==> CleanStatement(sql) != "" && !Permits(policy, CleanStatement(sql))
    ensures answer.Empty? || answer.Blocked? ==> conn.session == old(conn.session) && !conn.bad
    ensures answer.Answered? ==>
              && answer.statement == CleanStatement(sql)
              && 1 <= answer.cap == Clamp(policy, requested) <= policy.maxRows
              && answer.rowCount == |answer.resultSet.rows| <= answer.cap
              && s.feed.Success? && !FailsWithin(s.feed.value, answer.cap)
              && answer.resultSet == Capped(s.feed.value, answer.cap)
              && AreFirstRows(answer.resultSet.rows, s.feed.value, answer.cap)
              && IsWhole(answer.resultSet, s.feed.value)
              && answer.cap == if 1 <= requested <= policy.maxRows then requested else policy.maxRows
    ensures answer.Failed? && !answer.error.UseFailed? ==>
              s.feed.Failure? || FailsWithin(s.feed.value, Clamp(policy, requested))
    ensures answer.Failed? && answer.error.UseFailed? ==> IsScoped(database, repository.defaultDatabase)
    ensures conn.ranIn == old(conn.ranIn) + (if answer.Answered? || (answer.Failed? && !answer.error.UseFailed?)
                                             then [Wanted(database, repository.defaultDatabase)] else [])
    ensures answer.Answered? || answer.Failed? ==>
              (conn.bad || conn.session == repository.defaultDatabase <==>
               IsScoped(database, repository.defaultDatabase)
               || SessionAfter(repository.defaultDatabase, s) == repository.defaultDatabase)
  {
    var statement := CleanStatement(sql);
    if statement == "" {
      return Empty;
    }
    if policy.readOnly {
      var keyword := FirstKeyword(statement);
      if keyword !in READ_ONLY_KEYWORDS {
        return Blocked(keyword);
      }
    }
    var maxRows := requested;
    if maxRows <= 0 || maxRows > policy.maxRows {
      maxRows := policy.maxRows;
    }
    var result := repository.Execute(conn, s, database, maxRows);
    if result.Failure? {
      return Failed(result.error);
    }
    return Answered(result.value, |result.value.rows|, maxRows, statement);
  }

  /**
   Under the read-only policy a statement made of trivia, a word and something that does not continue
   the word is let through exactly when that word, whatever its case, is on the list. Trivia is meant
   as the code reads it; GuardJudgesTheStatement says when that is how the language reads it.
   */
  lemma GuardSeesTheWord(policy: Policy, trivia: seq<Trivia>, word: string, tail: string)
    requires policy.readOnly && AllWellFormed(trivia)
    requires word != "" && forall i :: 0 <= i < |word| ==>
                                         var c := word[i]; 'a' <= c <= 'z' || 'A' <= c <= 'Z' || '0' <= c <= '9' || c == '_'
    requires tail != "" ==> var c := tail[0]; !('a' <= c <= 'z' || 'A' <= c <= 'Z' || '0' <= c <= '9' || c == '_')
    ensures Permits(policy, TextOf(trivia) + (word + tail)) <==>
            ToLower(word) in {"select", "with", "show", "desc", "describe", "explain"}
  {
    SkipAll(trivia, word + tail);
    assert !StartsTrivia(word + tail) by {
      assert (word + tail)[0] == word[0];
    }
    WordEnds(word, tail);
  }

  // ----- The guard and the pool -----

  /** A request only the guard lets through, on a server where only statements off the list switch the session. */
  predicate Guarded(policy: Policy, e: Event) {
    e.Query? ==>
      && Permits(policy, e.statement.text)
      && BehindOverlap(e.statement.text).None?
      && (e.statement.switchesTo.Some? ==> StatementKeyword(e.statement.text) !in READ_ONLY_KEYWORDS)
  }

  lemma GuardedDoesNotStray(policy: Policy, default: string, pool: Pool, e: Event)
    requires policy.readOnly && Clean(default, pool) && Guarded(policy, e)
    ensures !Strays(default, pool, e)
  {
    if e.Query? && e.task in pool.tasks {
      GuardJudgesTheStatement(policy, e.statement.text);
      assert TaskClean(default, pool.tasks[e.task]);
    }
  }

  /**
   Under the read-only policy nothing strays: where only statements whose first word is off the list
   switch the session database, every statement runs in its wanted database and the pool stays clean.
   */
  lemma {:induction false} ReadOnlyPoolStaysClean(policy: Policy, default: string, pool: Pool, events: seq<Event>)
    requires policy.readOnly && Clean(default, pool)
    requires forall i :: 0 <= i < |events| ==> Guarded(policy, events[i])
    ensures NothingStrays(default, pool, events) && Clean(default, Run(default, pool, events))
  {
    if events != [] {
      var n := |events| - 1;
      ReadOnlyPoolStaysClean(policy, default, pool, events[..n]);
      GuardedDoesNotStray(policy, default, Run(default, pool, events[..n]), events[n]);
      NothingStraysSplits(default, pool, events);
      NextClean(default, Run(default, pool, events[..n]), events[n]);
    }
  }
}
