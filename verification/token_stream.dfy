/** The tokenizer of token_stream.cpp: a character source read one token at
    a time, with a single-slot pushback buffer.

    The character source is a sequence of items. A numeric literal is read by
    the host's float parser, which this model does not describe; such a
    literal therefore stands in the input as one `Literal` item, already
    parsed, at the place where get() would hand it to that parser. Every
    other input character is a `Char` item.

    Reading is context-free: where a token ends depends only on the
    characters, never on what the grammar does with it. The stream therefore
    holds the input as the sequence of outcomes successive unbuffered get()
    calls produce, `Lex(input)`, and `GetOpen` shows that taking the first of
    them is reading one token from the characters. */
module TokenStream {
  import opened Failures
  import opened Tokens

  datatype Item = Char(c: char) | Literal(v: real)

  /** The outcome of reading one token: a token the lexer can produce, or
      one of the reading errors. */
  type Lexeme = r: Result<Token> | if r.Ok? then Lexable(r.value) else ReadError(r.error)
    witness Err(BadToken)

  predicate ReadError(e: Error) {
    e == BadToken || e == UnlexedNumber || e == EndOfInput
  }

  /** The state of a Token_stream: the outcomes of the reads still to come
      and the buffer, which holds at most one token by construction. */
  datatype Stream = Stream(tokens: seq<Lexeme>, slot: Option<Token>)

  /** What is left to read: every successful get() makes it smaller. */
  function Measure(ts: Stream): nat {
    |ts.tokens| + (if ts.slot.Some? then 1 else 0)
  }

  // ---------------------------------------------------------------------
  // Characters (ASCII classification, as isalpha/isdigit/isspace/tolower)

  predicate IsAlpha(c: char) { 'a' <= c <= 'z' || 'A' <= c <= 'Z' }

  predicate IsDigit(c: char) { '0' <= c <= '9' }

  /** A character that may continue a name. */
  predicate IsWordChar(c: char) { IsAlpha(c) || IsDigit(c) || c == '_' }

  /** The characters `cin >> ch` skips before reading. */
  predicate IsSpace(c: char) {
    c == ' ' || c == '\t' || c == '\n' || c == '\r' || c == '\U{000B}' || c == '\U{000C}'
  }

  function ToLowerChar(c: char): (r: char)
    ensures IsAlpha(c) ==> IsAlpha(r) && 'a' <= r <= 'z'
    ensures 'A' <= c <= 'Z' ==> r as int - 'a' as int == c as int - 'A' as int
    ensures !IsAlpha(c) ==> r == c
    ensures 'a' <= c <= 'z' ==> r == c
  {
    if 'A' <= c <= 'Z' then (c as int - 'A' as int + 'a' as int) as char else c
  }

  /** tolower(string): appends the lower-cased characters one by one. */
  function ToLower(s: string): (r: string)
    ensures |r| == |s|
    ensures forall i :: 0 <= i < |s| ==> r[i] == ToLowerChar(s[i])
  {
    if |s| == 0 then [] else ToLower(s[..|s| - 1]) + [ToLowerChar(s[|s| - 1])]
  }

  /** Lower-casing leaves a spelling that is already lower case unchanged. */
  lemma ToLowerIdempotent(s: string)
    ensures ToLower(ToLower(s)) == ToLower(s)
  {
  }

  // ---------------------------------------------------------------------
  // Identifier scanning and keyword classification

  predicate IsWordItem(x: Item) { x.Char? && IsWordChar(x.c) }

  /** The maximal run of letters, digits and underscores at the front of the
      input. The item after the run, if any, is left unread. */
  function WordRun(input: seq<Item>): (w: string)
    ensures |w| <= |input|
    ensures forall i :: 0 <= i < |w| ==> input[i] == Char(w[i]) && IsWordChar(w[i])
    ensures |w| < |input| ==> !IsWordItem(input[|w|])
  {
    if |input| > 0 && IsWordItem(input[0]) then [input[0].c] + WordRun(input[1..]) else []
  }

  /** The spelling of a string as input items. */
  function Spell(s: string): (items: seq<Item>)
    ensures |items| == |s|
    ensures forall i :: 0 <= i < |s| ==> items[i] == Char(s[i])
  {
    seq(|s|, i requires 0 <= i < |s| => Char(s[i]))
  }

  /** A word is scanned back exactly when it is followed by a non-word item. */
  lemma {:induction false} WordRunOfSpelling(w: string, tail: seq<Item>)
    requires forall i :: 0 <= i < |w| ==> IsWordChar(w[i])
    requires |tail| == 0 || !IsWordItem(tail[0])
    ensures WordRun(Spell(w) + tail) == w
  {
    if |w| > 0 {
      assert (Spell(w) + tail)[1..] == Spell(w[1..]) + tail;
      WordRunOfSpelling(w[1..], tail);
      assert w == [w[0]] + w[1..];
    }
  }

  /** Keyword classification of a scanned identifier: the declaration and
      function keywords compare exactly, quit and help ignore case, and
      anything else is a name carrying its spelling. */
  function Classify(s: string): (t: Token)
    ensures Lexable(t)
  {
    if s == DeclKey then LetKw
    else if s == SqrtKey then SqrtKw
    else if s == PowKey then PowKw
    else if s == ConstKey then ConstKw
    else if ToLower(s) == QuitKey then QuitKw
    else if ToLower(s) == HelpKey then HelpKw
    else Name(s)
  }

  /** A spelling without upper-case letters is its own lower-case form. */
  lemma ToLowerOfLower(s: string)
    requires forall i :: 0 <= i < |s| ==> !('A' <= s[i] <= 'Z')
    ensures ToLower(s) == s
  {
  }

  /** The exact keywords are lower case and spell neither quit nor help. */
  lemma KeywordsAreLower()
    ensures ToLower(DeclKey) == DeclKey && ToLower(SqrtKey) == SqrtKey
    ensures ToLower(PowKey) == PowKey && ToLower(ConstKey) == ConstKey
  {
    ToLowerOfLower(DeclKey);
    ToLowerOfLower(SqrtKey);
    ToLowerOfLower(PowKey);
    ToLowerOfLower(ConstKey);
  }

  /** Classification stated keyword by keyword, both directions each. */
  lemma ClassifyCases(s: string)
    ensures Classify(s) == LetKw <==> s == DeclKey
    ensures Classify(s) == SqrtKw <==> s == SqrtKey
    ensures Classify(s) == PowKw <==> s == PowKey
    ensures Classify(s) == ConstKw <==> s == ConstKey
    ensures Classify(s) == QuitKw <==> ToLower(s) == QuitKey
    ensures Classify(s) == HelpKw <==> ToLower(s) == HelpKey
    ensures Classify(s).Name? <==>
              && s != DeclKey && s != SqrtKey && s != PowKey && s != ConstKey
              && ToLower(s) != QuitKey && ToLower(s) != HelpKey
    ensures Classify(s).Name? ==> Classify(s) == Name(s)
    ensures !Classify(s).Sym? && !Classify(s).Number?
  {
    KeywordsAreLower();
    assert DeclKey[0] == 'l' && SqrtKey[0] == 's' && PowKey[0] == 'p' && ConstKey[0] == 'c';
    assert QuitKey[0] == 'q' && HelpKey[0] == 'h';
    if s == DeclKey || s == SqrtKey || s == PowKey || s == ConstKey {
      assert ToLower(s) == s;
      assert ToLower(s)[0] != 'q' && ToLower(s)[0] != 'h';
    }
  }

  lemma ClassifyExamples()
    ensures Classify("Let") == Name("Let")
    ensures Classify("QUIT") == QuitKw
    ensures Classify("Help") == HelpKw
  {
    var quit := "QUIT";
    assert ToLower(quit)[0] == 'q' && ToLower(quit)[1] == 'u' && ToLower(quit)[2] == 'i' && ToLower(quit)[3] == 't';
    assert ToLower(quit) == QuitKey;
    var help := "Help";
    assert ToLower(help)[0] == 'h' && ToLower(help)[1] == 'e' && ToLower(help)[2] == 'l' && ToLower(help)[3] == 'p';
    assert ToLower(help) == HelpKey;
    var let' := "Let";
    assert ToLower(let') != QuitKey && ToLower(let') != HelpKey;
  }

  // ---------------------------------------------------------------------
  // Reading one token from the characters

  /** The number of blanks `cin >> ch` skips at the front of the input. */
  function Blanks(input: seq<Item>): (n: nat)
    ensures n <= |input|
    ensures forall j :: 0 <= j < n ==> input[j].Char? && IsSpace(input[j].c)
    ensures n < |input| ==> !(input[n].Char? && IsSpace(input[n].c))
  {
    if |input| > 0 && input[0].Char? && IsSpace(input[0].c) then 1 + Blanks(input[1..]) else 0
  }

  /** A character that can start no token: not a symbol, not the start of a
      number, not a letter. `_` is one of them. */
  predicate StartsNothing(c: char) {
    c !in SymbolChars && c != '.' && !IsDigit(c) && !IsAlpha(c)
  }

  /** The unbuffered branch of get(): classify the next non-blank item. The
      second component is the number of items the read consumes; only the
      end of the input consumes nothing but blanks. */
  function ReadToken(input: seq<Item>): (r: (Lexeme, nat))
    ensures r.1 <= |input|
    ensures r.0 == Err(EndOfInput) ==> r.1 == |input|
    ensures r.0 != Err(EndOfInput) ==> r.1 > 0
  {
    var s := Blanks(input);
    if s == |input| then (Err(EndOfInput), s)
    else match input[s]
      case Literal(v) => (Ok(Number(v)), s + 1)
      case Char(ch) =>
        if ch in SymbolChars then (Ok(Sym(ch)), s + 1)
        else if ch == '.' || IsDigit(ch) then (Err(UnlexedNumber), s + 1)
        else if IsAlpha(ch) then
          var w := WordRun(input[s + 1..]);
          (Ok(Classify([ch] + w)), s + 1 + |w|)
        else (Err(BadToken), s + 1)
  }

  /** The outcomes of successive unbuffered get() calls on the input, up to
      its end. */
  function Lex(input: seq<Item>): (toks: seq<Lexeme>)
    ensures |toks| <= |input|
    ensures forall i :: 0 <= i < |toks| ==> toks[i] != Err(EndOfInput)
    decreases |input|
  {
    var r := ReadToken(input);
    if r.0 == Err(EndOfInput) then [] else [r.0] + Lex(input[r.1..])
  }

  /** A fresh Token_stream over the given input: the buffer is empty. */
  function Open(input: seq<Item>): (ts: Stream)
    ensures ts.slot.None? && ts.tokens == Lex(input)
  {
    Stream(Lex(input), None)
  }

  // ---------------------------------------------------------------------
  // putback / get / ignore

  /** putback(): fails when the buffer is already full, else fills it. */
  function Putback(ts: Stream, t: Token): (r: Result<Stream>)
    ensures r.Err? <==> ts.slot.Some?
    ensures r.Err? ==> r.error == BufferFull
    ensures r.Ok? ==> r.value.tokens == ts.tokens && r.value.slot == Some(t)
  {
    if ts.slot.Some? then Err(BufferFull) else Ok(Stream(ts.tokens, Some(t)))
  }

  /** get(): a buffered token is returned first; otherwise one token is read.
      Either way the buffer is empty afterwards. */
  function Get(ts: Stream): (r: (Result<Token>, Stream))
    ensures r.1.slot.None?
    ensures ts.slot.Some? ==> r == (Ok(ts.slot.value), Stream(ts.tokens, None))
    ensures Measure(r.1) <= Measure(ts)
    ensures r.0.Ok? ==> Measure(r.1) < Measure(ts)
    ensures r.0.Ok? && ts.slot.None? ==> Lexable(r.0.value)
    ensures r.0.Err? ==> ReadError(r.0.error)
  {
    if ts.slot.Some? then (Ok(ts.slot.value), Stream(ts.tokens, None))
    else if |ts.tokens| == 0 then (Err(EndOfInput), ts)
    else (ts.tokens[0], Stream(ts.tokens[1..], None))
  }

  /** On a fresh stream, get() reads one token from the characters and leaves
      a fresh stream over the characters after it. */
  lemma GetOpen(input: seq<Item>)
    ensures var r := ReadToken(input);
            Get(Open(input)) == (r.0, Open(input[r.1..]))
  {
  }

  /** Putting a token back into the buffer a get() has just emptied: this
      can never hit the full-buffer error. */
  function Unget(ts: Stream, t: Token): (r: Stream)
    requires ts.slot.None?
    ensures Putback(ts, t) == Ok(r)
    ensures Measure(r) == Measure(ts) + 1
  {
    Stream(ts.tokens, Some(t))
  }

  /** Round trip: get() after a successful putback() returns that token and
      restores the stream as it was. */
  lemma GetAfterPutback(ts: Stream, t: Token)
    requires Putback(ts, t).Ok?
    ensures Get(Putback(ts, t).value) == (Ok(t), ts)
  {
  }

  /** After any get() the buffer is empty, so the putback() that follows
      never fails, and the next get() returns the put-back token. */
  lemma PutbackAfterGet(ts: Stream, t: Token)
    ensures Putback(Get(ts).1, t).Ok?
    ensures Get(Putback(Get(ts).1, t).value) == (Ok(t), Get(ts).1)
  {
  }

  // ---------------------------------------------------------------------
  // Reading names, symbols and literals

  /** Reading the spelling of a name followed by a non-word item yields the
      name token, or the keyword token it spells. */
  lemma ReadAlpha(input: seq<Item>)
    requires |input| > 0 && input[0].Char? && IsAlpha(input[0].c)
    ensures var run := WordRun(input[1..]);
            ReadToken(input) == (Ok(Classify([input[0].c] + run)), 1 + |run|)
  {
    assert Blanks(input) == 0;
    assert input[0].c !in SymbolChars;
  }

  lemma SpellSplit(w: string, tail: seq<Item>)
    requires |w| > 0
    ensures (Spell(w) + tail)[0] == Char(w[0])
    ensures (Spell(w) + tail)[1..] == Spell(w[1..]) + tail
  {
  }

  lemma ReadWord(w: string, tail: seq<Item>)
    requires |w| > 0 && IsAlpha(w[0])
    requires forall i :: 0 <= i < |w| ==> IsWordChar(w[i])
    requires |tail| == 0 || !IsWordItem(tail[0])
    ensures ReadToken(Spell(w) + tail) == (Ok(Classify(w)), |w|)
  {
    SpellSplit(w, tail);
    WordRunOfSpelling(w[1..], tail);
    ReadName(Spell(w) + tail, w);
  }

  lemma ReadName(input: seq<Item>, w: string)
    requires |w| > 0 && IsAlpha(w[0])
    requires |input| > 0 && input[0] == Char(w[0]) && WordRun(input[1..]) == w[1..]
    ensures ReadToken(input) == (Ok(Classify(w)), |w|)
  {
    ReadAlpha(input);
    HeadTail(w);
  }

  lemma HeadTail(w: string)
    requires |w| > 0
    ensures [w[0]] + w[1..] == w
  {
  }

  lemma LexWord(w: string, tail: seq<Item>)
    requires |w| > 0 && IsAlpha(w[0])
    requires forall i :: 0 <= i < |w| ==> IsWordChar(w[i])
    requires |tail| == 0 || !IsWordItem(tail[0])
    ensures Lex(Spell(w) + tail) == [Ok(Classify(w))] + Lex(tail)
  {
    ReadWord(w, tail);
    assert (Spell(w) + tail)[|w|..] == tail;
  }

  /** Each of the thirteen symbol characters is a token of its own. */
  lemma ReadSymbol(c: char, tail: seq<Item>)
    requires c in SymbolChars
    ensures ReadToken([Char(c)] + tail) == (Ok(Sym(c)), 1)
    ensures Lex([Char(c)] + tail) == [Ok(Sym(c))] + Lex(tail)
  {
    assert Blanks([Char(c)] + tail) == 0;
    assert ([Char(c)] + tail)[1..] == tail;
  }

  /** A numeric literal is one number token. */
  lemma ReadLiteral(x: real, tail: seq<Item>)
    ensures ReadToken([Literal(x)] + tail) == (Ok(Number(x)), 1)
    ensures Lex([Literal(x)] + tail) == [Ok(Number(x))] + Lex(tail)
  {
    assert Blanks([Literal(x)] + tail) == 0;
    assert ([Literal(x)] + tail)[1..] == tail;
  }

  /** A read finds the end of the input exactly when only blanks remain. */
  lemma ReadEnd(input: seq<Item>)
    ensures ReadToken(input).0 == Err(EndOfInput) <==> Blanks(input) == |input|
  {
    var s := Blanks(input);
    if s < |input| && input[s].Char? {
      var ch := input[s].c;
      if ch !in SymbolChars && ch != '.' && !IsDigit(ch) && IsAlpha(ch) {
        assert ReadToken(input).0.Ok?;
      }
    }
  }

  /** get() fails with "Bad token" exactly when the first non-blank
      character starts no token; the read consumes the blanks and that one
      character. */
  lemma ReadBadToken(input: seq<Item>)
    ensures ReadToken(input).0 == Err(BadToken) <==>
              Blanks(input) < |input| && input[Blanks(input)].Char? && StartsNothing(input[Blanks(input)].c)
    ensures ReadToken(input).0 == Err(BadToken) ==> ReadToken(input).1 == Blanks(input) + 1
  {
    var s := Blanks(input);
    if s < |input| && input[s].Char? {
      var ch := input[s].c;
      if ch !in SymbolChars && ch != '.' && !IsDigit(ch) && IsAlpha(ch) {
        assert ReadToken(input).0.Ok?;
      }
    }
  }

  /** A digit or `.` that the host parser did not turn into a number is an
      unlexed number, consuming the blanks and that one character. */
  lemma ReadUnlexed(input: seq<Item>)
    ensures ReadToken(input).0 == Err(UnlexedNumber) <==>
              Blanks(input) < |input| && input[Blanks(input)].Char?
              && (input[Blanks(input)].c == '.' || IsDigit(input[Blanks(input)].c))
    ensures ReadToken(input).0 == Err(UnlexedNumber) ==> ReadToken(input).1 == Blanks(input) + 1
  {
    var s := Blanks(input);
    if s < |input| && input[s].Char? && (input[s].c == '.' || IsDigit(input[s].c)) {
      NumberStartsAreNotSymbols(input[s].c);
      assert ReadToken(input) == (Err(UnlexedNumber), s + 1);
    } else if s < |input| && input[s].Char? && input[s].c !in SymbolChars && IsAlpha(input[s].c) {
      assert ReadToken(input).0.Ok?;
    }
  }

  /** A character that starts no token is a bad token on its own, and the
      reading resumes right after it. */
  lemma ReadBad(c: char, tail: seq<Item>)
    requires StartsNothing(c) && !IsSpace(c)
    ensures ReadToken([Char(c)] + tail) == (Err(BadToken), 1)
    ensures Lex([Char(c)] + tail) == [Err(BadToken)] + Lex(tail)
  {
    assert Blanks([Char(c)] + tail) == 0;
    assert ([Char(c)] + tail)[1..] == tail;
  }

  /** A name cannot begin with `_`: `_x` reads as a bad token and then the
      name `x`. */
  lemma UnderscoreStartsNoName()
    ensures Lex([Char('_'), Char('x')]) == [Err(BadToken), Ok(Name("x"))]
  {
    ReadBad('_', [Char('x')]);
    assert [Char('_'), Char('x')] == [Char('_')] + Spell("x");
    assert Spell("x") + [] == Spell("x");
    LexWord("x", []);
    ClassifyCases("x");
  }

  // ---------------------------------------------------------------------
  // ignore

  /** The input left after discarding items up to and including the first
      non-blank `Char(ch)`, or nothing if there is none. A `Literal` is
      discarded whole. */
  function SkipPast(input: seq<Item>, ch: char): (rest: seq<Item>)
    ensures |rest| <= |input| && rest == input[|input| - |rest|..]
    ensures IsSpace(ch) || Char(ch) !in input ==> rest == []
    ensures !IsSpace(ch) && Char(ch) in input ==>
              |rest| < |input| && input[|input| - |rest| - 1] == Char(ch)
              && forall j :: 0 <= j < |input| - |rest| - 1 ==> input[j] != Char(ch)
  {
    if |input| == 0 then []
    else if input[0] == Char(ch) && !IsSpace(ch) then input[1..]
    else SkipPast(input[1..], ch)
  }

  /** The same discarding on the token outcomes: everything up to and
      including the first symbol token `ch`. */
  function SkipTokens(toks: seq<Lexeme>, ch: char): (rest: seq<Lexeme>)
    ensures |rest| <= |toks| && rest == toks[|toks| - |rest|..]
    ensures Ok(Sym(ch)) !in toks ==> rest == []
    ensures Ok(Sym(ch)) in toks ==>
              |rest| < |toks| && toks[|toks| - |rest| - 1] == Ok(Sym(ch))
              && forall j :: 0 <= j < |toks| - |rest| - 1 ==> toks[j] != Ok(Sym(ch))
  {
    if |toks| == 0 then []
    else if toks[0] == Ok(Sym(ch)) then toks[1..]
    else SkipTokens(toks[1..], ch)
  }

  /** ignore(ch): a buffered token of kind ch is dropped and nothing more is
      read; otherwise the buffer is dropped and input is discarded up to and
      including the first ch. */
  function Ignore(ts: Stream, ch: char): (r: Stream)
    ensures r.slot.None?
    ensures ts.slot.Some? && Kind(ts.slot.value) == ch ==> r.tokens == ts.tokens
    ensures !(ts.slot.Some? && Kind(ts.slot.value) == ch) ==> r.tokens == SkipTokens(ts.tokens, ch)
  {
    if ts.slot.Some? && Kind(ts.slot.value) == ch then Stream(ts.tokens, None)
    else Stream(SkipTokens(ts.tokens, ch), None)
  }

  /** Skipping leading items none of which is `Char(ch)` does not change
      where the discarding ends. */
  lemma SkipPastDrop(input: seq<Item>, k: nat, ch: char)
    requires k <= |input|
    requires forall j :: 0 <= j < k ==> input[j] != Char(ch)
    ensures SkipPast(input, ch) == SkipPast(input[k..], ch)
    decreases k
  {
    if k > 0 {
      SkipPastDrop(input[1..], k - 1, ch);
      assert input[1..][k - 1..] == input[k..];
    }
  }

  /** The items one read consumes contain no symbol character, except the
      last one when the token read is that symbol. */
  lemma ReadTokenConsumes(input: seq<Item>, ch: char)
    requires ch in SymbolChars
    ensures var r := ReadToken(input);
            if r.0 == Ok(Sym(ch)) then
              r.1 > 0 && input[r.1 - 1] == Char(ch) && forall j :: 0 <= j < r.1 - 1 ==> input[j] != Char(ch)
            else
              forall j :: 0 <= j < r.1 ==> input[j] != Char(ch)
  {
    SymbolsAreNotWordChars(ch);
    var s := Blanks(input);
    assert forall j :: 0 <= j < s ==> input[j] != Char(ch);
    if s < |input| && input[s].Char? && IsAlpha(input[s].c) {
      WordConsumes(input, s, ch);
    }
  }

  lemma WordConsumes(input: seq<Item>, s: nat, ch: char)
    requires ch in SymbolChars
    requires s < |input| && input[s].Char? && IsAlpha(input[s].c)
    ensures var w := WordRun(input[s + 1..]);
            forall j :: s <= j < s + 1 + |w| ==> input[j] != Char(ch)
  {
    SymbolsAreNotWordChars(ch);
    var w := WordRun(input[s + 1..]);
    forall j | s + 1 <= j < s + 1 + |w|
      ensures input[j] != Char(ch)
    {
      assert input[j] == input[s + 1..][j - s - 1];
    }
  }

  /** A digit or `.` is never a symbol character. */
  lemma NumberStartsAreNotSymbols(c: char)
    requires c == '.' || IsDigit(c)
    ensures c !in SymbolChars
  {
    assert c != Print && c != '=' && c != '{' && c != '}';
  }

  /** No symbol character can occur inside a name or a run of blanks. */
  lemma SymbolsAreNotWordChars(ch: char)
    requires ch in SymbolChars
    ensures !IsWordChar(ch) && !IsSpace(ch)
  {
  }

  /** Lex() unrolled once: the first outcome, then the rest of the input. */
  lemma LexFirst(input: seq<Item>)
    requires ReadToken(input).0 != Err(EndOfInput)
    ensures Lex(input) == [ReadToken(input).0] + Lex(input[ReadToken(input).1..])
  {
  }

  /** Discarding characters up to a symbol character and discarding token
      outcomes up to that symbol token agree: the character-level ignore()
      of token_stream.cpp and the token-level one describe the same input. */
  lemma {:induction false} LexSkipPast(input: seq<Item>, ch: char)
    requires ch in SymbolChars
    ensures Lex(SkipPast(input, ch)) == SkipTokens(Lex(input), ch)
    decreases |input|
  {
    var r := ReadToken(input);
    ReadTokenConsumes(input, ch);
    if r.0 == Err(EndOfInput) {
      SkipPastDrop(input, |input|, ch);
      assert input[|input|..] == [];
    } else {
      LexFirst(input);
      var after := input[r.1..];
      if r.0 == Ok(Sym(ch)) {
        SkipPastDrop(input, r.1 - 1, ch);
        SkipPastHit(input[r.1 - 1..], ch);
        assert input[r.1 - 1..][1..] == after;
      } else {
        SkipPastDrop(input, r.1, ch);
        LexSkipPast(after, ch);
      }
    }
  }

  lemma SkipPastHit(input: seq<Item>, ch: char)
    requires |input| > 0 && input[0] == Char(ch) && ch in SymbolChars
    ensures SkipPast(input, ch) == input[1..]
  {
  }

  /** After ignore(';') following a statement, the next get() starts right
      after the first ';' of the remaining input. */
  lemma IgnoreResynchronises(ts: Stream, before: seq<Item>, after: seq<Item>)
    requires ts.slot.None? || Kind(ts.slot.value) != Print
    requires ts.tokens == Lex(before + [Char(Print)] + after)
    requires Char(Print) !in before
    ensures Ignore(ts, Print) == Open(after)
  {
    var input := before + [Char(Print)] + after;
    LexSkipPast(input, Print);
    var r := SkipPast(input, Print);
    var k := |input| - |r| - 1;
    assert input[|before|] == Char(Print);
    assert forall j :: 0 <= j < |before| ==> input[j] == before[j];
    assert k == |before|;
  }
}
