/** The tokenizer: source text to a list of `paren`, `number`, `string` and `name` tokens.

    `Lex` is the meaning of the scanner, written as a recursion on the unread rest of the
    input; `Tokenizer` is the index-driven scanner itself, proved equal to `Lex`. Each character
    of the input stands for one byte of the source string. */
module Tokens {
  import opened Results

  /** The `tokenType` field: "paren", "number", "string" or "name". */
  datatype Kind = Paren | Number | Str | Name

  datatype Token = Token(kind: Kind, value: string)

  // The character classes are those of Go's unicode.IsSpace, unicode.IsDigit and
  // unicode.IsLetter on a single byte, that is on a code point below 0x100.

  predicate IsSpace(c: char) {
    c == ' ' || c == '\t' || c == '\n' || c == '\U{0B}' || c == '\U{0C}' || c == '\r'
    || c == '\U{85}' || c == '\U{A0}'
  }

  predicate IsDigit(c: char) {
    '0' <= c <= '9'
  }

  predicate IsLetter(c: char) {
    ('A' <= c <= 'Z') || ('a' <= c <= 'z')
    || c == '\U{AA}' || c == '\U{B5}' || c == '\U{BA}'
    || ('\U{C0}' <= c <= '\U{FF}' && c != '\U{D7}' && c != '\U{F7}')
  }

  predicate IsNotQuote(c: char) {
    c != '"'
  }

  /** A character that starts none of the scanner's branches. */
  predicate IsUnknown(c: char) {
    c != '(' && c != ')' && c != '"' && !IsSpace(c) && !IsDigit(c) && !IsLetter(c)
  }

  /** The end of the maximal run of characters satisfying `p` that starts at `i`. */
  function SpanEnd(s: string, i: nat, p: char -> bool): (j: nat)
    requires i <= |s|
    ensures i <= j <= |s|
    ensures forall k :: i <= k < j ==> p(s[k])
    ensures j < |s| ==> !p(s[j])
    decreases |s| - i
  {
    if i < |s| && p(s[i]) then SpanEnd(s, i + 1, p) else i
  }

  /** The shape of every token the scanner produces. */
  predicate WellFormed(t: Token) {
    match t.kind
    case Paren => t.value == "(" || t.value == ")"
    case Number => |t.value| > 0 && forall k :: 0 <= k < |t.value| ==> IsDigit(t.value[k])
    case Name => |t.value| > 0 && forall k :: 0 <= k < |t.value| ==> IsLetter(t.value[k])
    case Str => forall k :: 0 <= k < |t.value| ==> IsNotQuote(t.value[k])
  }

  /** What one pass of the scanner's outer loop does at the start of `s`: the tokens it
      appends (none for whitespace, one otherwise) and how many characters it consumes. */
  datatype Step = Step(emitted: seq<Token>, length: nat)

  /** One pass of the outer loop; a run or a string literal that reaches the end of the input
      fails, because the scanner reads the character after it. */
  function ScanOne(s: string): (r: Result<Step>)
    requires |s| > 0
    ensures r.Ok? ==> 0 < r.value.length <= |s| && |r.value.emitted| <= 1
  {
    var c := s[0];
    if c == '(' then Ok(Step([Token(Paren, "(")], 1))
    else if c == ')' then Ok(Step([Token(Paren, ")")], 1))
    else if IsSpace(c) then Ok(Step([], 1))
    else if IsDigit(c) then
      var n := SpanEnd(s, 0, IsDigit);
      if n == |s| then Fail(InputExhausted) else Ok(Step([Token(Number, s[..n])], n))
    else if c == '"' then
      var n := SpanEnd(s, 1, IsNotQuote);
      if n == |s| then Fail(InputExhausted) else Ok(Step([Token(Str, s[1..n])], n + 1))
    else if IsLetter(c) then
      var n := SpanEnd(s, 0, IsLetter);
      if n == |s| then Fail(InputExhausted) else Ok(Step([Token(Name, s[..n])], n))
    else Fail(UnknownCharacter(c))
  }

  /** The tokens of `s`, left to right. */
  function Lex(s: string): (r: Result<seq<Token>>)
    decreases |s|
  {
    if s == [] then Ok([])
    else
      var step :- ScanOne(s);
      Prefix(step.emitted, Lex(s[step.length..]))
  }

  /** Every token of a successful scan has its kind's shape. */
  lemma {:induction false} LexWellFormed(s: string)
    ensures Lex(s).Ok? ==> forall t <- Lex(s).value :: WellFormed(t)
    decreases |s|
  {
    if s != [] && ScanOne(s).Ok? {
      LexWellFormed(s[ScanOne(s).value.length..]);
    }
  }

  /** A scan yields at most one token per character. */
  lemma {:induction false} LexLength(s: string)
    ensures Lex(s).Ok? ==> |Lex(s).value| <= |s|
    decreases |s|
  {
    if s != [] && ScanOne(s).Ok? {
      LexLength(s[ScanOne(s).value.length..]);
    }
  }

  // The pass taken at each kind of character, one lemma per branch.

  lemma ScanOneSingle(s: string)
    requires |s| > 0 && (s[0] == '(' || s[0] == ')' || IsSpace(s[0]))
    ensures s[0] == '(' ==> ScanOne(s) == Ok(Step([Token(Paren, "(")], 1))
    ensures s[0] == ')' ==> ScanOne(s) == Ok(Step([Token(Paren, ")")], 1))
    ensures IsSpace(s[0]) ==> ScanOne(s) == Ok(Step([], 1))
  {
  }

  lemma ScanOneDigits(input: string, at: nat, next: nat)
    requires at < |input| && IsDigit(input[at]) && next == SpanEnd(input, at, IsDigit) < |input|
    ensures at < next && ScanOne(input[at..]) == Ok(Step([Token(Number, input[at..next])], next - at))
  {
    var rest := input[at..];
    SpanEndShift(input, at, 0, IsDigit);
    assert rest[..next - at] == input[at..next];
  }

  lemma ScanOneLetters(input: string, at: nat, next: nat)
    requires at < |input| && IsLetter(input[at]) && !IsDigit(input[at])
    requires next == SpanEnd(input, at, IsLetter) < |input|
    ensures at < next && ScanOne(input[at..]) == Ok(Step([Token(Name, input[at..next])], next - at))
  {
    var rest := input[at..];
    ScanOneLetterBranch(rest);
    SpanEndShift(input, at, 0, IsLetter);
    assert rest[..next - at] == input[at..next];
  }

  /** A letter that is not a digit takes the last branch of the pass. */
  lemma ScanOneLetterBranch(s: string)
    requires |s| > 0 && IsLetter(s[0]) && !IsDigit(s[0])
    ensures var n := SpanEnd(s, 0, IsLetter);
      ScanOne(s) == if n == |s| then Fail(InputExhausted) else Ok(Step([Token(Name, s[..n])], n))
  {
    var c := s[0];
    assert c != '(' && c != ')' && c != '"' && !IsSpace(c);
  }

  lemma ScanOneString(input: string, at: nat, next: nat)
    requires at < |input| && input[at] == '"' && next == SpanEnd(input, at + 1, IsNotQuote) < |input|
    ensures at < next && ScanOne(input[at..]) == Ok(Step([Token(Str, input[at + 1..next])], next + 1 - at))
  {
    var rest := input[at..];
    SpanEndShift(input, at, 1, IsNotQuote);
    assert rest[1..next - at] == input[at + 1..next];
  }

  /** One pass of the outer loop keeps the scanner's tokens, followed by the scan of the
      unread input, equal to the scan of the whole input. */
  lemma LexAdvance(input: string, at: nat, step: Step, tokens: seq<Token>)
    requires at < |input| && ScanOne(input[at..]) == Ok(step)
    requires Lex(input) == Prefix(tokens, Lex(input[at..]))
    ensures at + step.length <= |input|
    ensures Lex(input) == Prefix(tokens + step.emitted, Lex(input[at + step.length..]))
  {
    var rest := input[at..];
    assert rest[step.length..] == input[at + step.length..];
    PrefixPrefix(tokens, step.emitted, Lex(input[at + step.length..]));
  }

  /** A digit run, letter run or string literal that reaches the end of the input fails the
      pass, because the scanner reads the character after it. */
  lemma ScanOneExhausted(input: string, at: nat, start: nat, p: char -> bool)
    requires at < |input|
    requires (p == IsDigit && start == at && IsDigit(input[at]))
          || (p == IsLetter && start == at && IsLetter(input[at]) && !IsDigit(input[at]))
          || (p == IsNotQuote && start == at + 1 && input[at] == '"')
    requires SpanEnd(input, start, p) == |input|
    ensures ScanOne(input[at..]) == Fail(InputExhausted)
  {
    SpanEndShift(input, at, start - at, p);
  }

  /** The scan before the first pass and after the last one. */
  lemma LexBounds(input: string)
    ensures Lex(input) == Prefix([], Lex(input[0..]))
    ensures forall tokens: seq<Token> {:trigger Prefix(tokens, Lex(input[|input|..]))} ::
      Prefix(tokens, Lex(input[|input|..])) == Ok(tokens)
  {
    assert input[0..] == input;
    assert Lex(input).Ok? ==> [] + Lex(input).value == Lex(input).value;
    assert input[|input|..] == [];
    forall tokens: seq<Token> ensures Prefix(tokens, Lex(input[|input|..])) == Ok(tokens) {
      assert tokens + [] == tokens;
    }
  }

  /** A failing pass fails the whole scan with the same error. */
  lemma LexStops(input: string, at: nat, tokens: seq<Token>)
    requires at < |input| && ScanOne(input[at..]).Fail?
    requires Lex(input) == Prefix(tokens, Lex(input[at..]))
    ensures Lex(input) == Fail(ScanOne(input[at..]).error)
  {
  }

  /** The scanner: a `current` index over the input, tokens appended one at a time. */
  method Tokenizer(input: string) returns (r: Result<seq<Token>>)
    ensures r == Lex(input)
  {
    var current := 0;
    var tokens: seq<Token> := [];
    LexBounds(input);
    while current < |input|
      invariant current <= |input|
      invariant Lex(input) == Prefix(tokens, Lex(input[current..]))
      decreases |input| - current
    {
      var step := ScanToken(input, current);
      if step.Fail? {
        LexStops(input, current, tokens);
        return Fail(step.error);
      }
      LexAdvance(input, current, step.value, tokens);
      tokens := tokens + step.value.emitted;
      current := current + step.value.length;
    }
    LexBounds(input);
    return Ok(tokens);
  }

  /** The body of the scanner's outer loop: look at the character at `current`, read the run
      or string literal it starts, and say what to append and how far to move. */
  method ScanToken(input: string, current: nat) returns (r: Result<Step>)
    requires current < |input|
    ensures r == ScanOne(input[current..])
  {
    var ch := input[current];
    assert input[current..][0] == ch;
    if ch == '(' {
      ScanOneSingle(input[current..]);
      return Ok(Step([Token(Paren, "(")], 1));
    }
    if ch == ')' {
      ScanOneSingle(input[current..]);
      return Ok(Step([Token(Paren, ")")], 1));
    }
    if IsSpace(ch) {
      ScanOneSingle(input[current..]);
      return Ok(Step([], 1));
    }
    if IsDigit(ch) {
      var value, next, exhausted := ReadWhile(input, current, IsDigit);
      if exhausted {
        ScanOneExhausted(input, current, current, IsDigit);
        return Fail(InputExhausted);
      }
      ScanOneDigits(input, current, next);
      return Ok(Step([Token(Number, value)], next - current));
    }
    if ch == '"' {
      // skip the opening quote; the closing one is counted in the step's length
      var value, next, exhausted := ReadWhile(input, current + 1, IsNotQuote);
      if exhausted {
        ScanOneExhausted(input, current, current + 1, IsNotQuote);
        return Fail(InputExhausted);
      }
      ScanOneString(input, current, next);
      return Ok(Step([Token(Str, value)], next + 1 - current));
    }
    if IsLetter(ch) {
      var value, next, exhausted := ReadWhile(input, current, IsLetter);
      if exhausted {
        ScanOneExhausted(input, current, current, IsLetter);
        return Fail(InputExhausted);
      }
      ScanOneLetters(input, current, next);
      return Ok(Step([Token(Name, value)], next - current));
    }
    return Fail(UnknownCharacter(ch));
  }

  /** The inner loop of the digit, string and letter branches: append characters while `p`
      holds, reading the character after each one; reading past the end fails. */
  method ReadWhile(input: string, start: nat, p: char -> bool) returns (value: string, current: nat, exhausted: bool)
    requires start <= |input|
    ensures exhausted <==> SpanEnd(input, start, p) == |input|
    ensures !exhausted ==> current == SpanEnd(input, start, p) && value == input[start..current]
  {
    current := start;
    value := "";
    if current == |input| {
      return value, current, true;
    }
    var ch := input[current];
    while p(ch)
      invariant start <= current < |input| && ch == input[current]
      invariant value == input[start..current]
      invariant SpanEnd(input, start, p) == SpanEnd(input, current, p)
      decreases |input| - current
    {
      value := value + [ch];
      current := current + 1;
      if current == |input| {
        return value, current, true;
      }
      ch := input[current];
    }
    return value, current, false;
  }

  // ---------------------------------------------------------------------------
  // Runs

  /** A run is determined by where it stops. */
  lemma {:induction false} SpanEndAt(s: string, i: nat, j: nat, p: char -> bool)
    requires i <= j <= |s|
    requires forall k :: i <= k < j ==> p(s[k])
    requires j < |s| ==> !p(s[j])
    ensures SpanEnd(s, i, p) == j
    decreases j - i
  {
    if i < j {
      SpanEndAt(s, i + 1, j, p);
    }
  }

  /** A run inside a suffix is the same run in the whole string. */
  lemma SpanEndShift(s: string, at: nat, i: nat, p: char -> bool)
    requires at + i <= |s|
    ensures SpanEnd(s[at..], i, p) + at == SpanEnd(s, at + i, p)
  {
    var t := s[at..];
    var n := SpanEnd(t, i, p);
    assert forall k :: at + i <= k < at + n ==> s[k] == t[k - at];
    SpanEndAt(s, at + i, at + n, p);
  }

  /** A run that stops inside `a` stops at the same place whatever follows `a`. */
  lemma SpanEndPrefix(a: string, b: string, i: nat, p: char -> bool)
    requires i <= |a| && SpanEnd(a, i, p) < |a|
    ensures SpanEnd(a + b, i, p) == SpanEnd(a, i, p)
  {
    var n := SpanEnd(a, i, p);
    SpanEndAt(a + b, i, n, p);
  }

  // ---------------------------------------------------------------------------
  // Token shapes

  /** `(` and `)` each give one paren token holding that character; whitespace gives none. */
  lemma LexParenAndSpace(c: char, rest: string)
    requires c == '(' || c == ')' || IsSpace(c)
    ensures c == '(' ==> Lex([c] + rest) == Prefix([Token(Paren, "(")], Lex(rest))
    ensures c == ')' ==> Lex([c] + rest) == Prefix([Token(Paren, ")")], Lex(rest))
    ensures IsSpace(c) ==> Lex([c] + rest) == Lex(rest)
  {
    assert Lex(rest).Ok? ==> [] + Lex(rest).value == Lex(rest).value;
    assert ([c] + rest)[1..] == rest;
  }

  /** A maximal digit run gives one number token holding the whole run. */
  lemma LexNumberRun(d: string, rest: string)
    requires |d| > 0 && forall k :: 0 <= k < |d| ==> IsDigit(d[k])
    requires |rest| > 0 && !IsDigit(rest[0])
    ensures Lex(d + rest) == Prefix([Token(Number, d)], Lex(rest))
  {
    var s := d + rest;
    SpanEndAt(s, 0, |d|, IsDigit);
    assert s[..|d|] == d && s[|d|..] == rest;
  }

  /** A maximal letter run gives one name token holding the whole run. */
  lemma LexNameRun(w: string, rest: string)
    requires |w| > 0 && forall k :: 0 <= k < |w| ==> IsLetter(w[k])
    requires |rest| > 0 && !IsLetter(rest[0])
    ensures Lex(w + rest) == Prefix([Token(Name, w)], Lex(rest))
  {
    var s := w + rest;
    SpanEndAt(s, 0, |w|, IsLetter);
    assert s[0] == w[0] && !IsDigit(s[0]) && !IsSpace(s[0]);
    assert s[..|w|] == w && s[|w|..] == rest;
    assert ScanOne(s) == Ok(Step([Token(Name, w)], |w|));
  }

  /** A quoted string gives one string token holding exactly the characters between the
      quotes; the closing quote gives no token. */
  lemma LexStringLiteral(v: string, rest: string)
    requires forall k :: 0 <= k < |v| ==> IsNotQuote(v[k])
    ensures Lex("\"" + v + "\"" + rest) == Prefix([Token(Str, v)], Lex(rest))
  {
    var s := "\"" + v + "\"" + rest;
    SpanEndAt(s, 1, |v| + 1, IsNotQuote);
    assert s[1..|v| + 1] == v && s[|v| + 2..] == rest;
  }

  /** A string literal without its closing quote fails. */
  lemma LexUnterminatedString(v: string)
    requires forall k :: 0 <= k < |v| ==> IsNotQuote(v[k])
    ensures Lex("\"" + v) == Fail(InputExhausted)
  {
    var s := "\"" + v;
    SpanEndAt(s, 1, |s|, IsNotQuote);
  }

  // ---------------------------------------------------------------------------
  // Order and failures

  /** A pass that completes inside `a` does the same whatever follows `a`. */
  lemma ScanOnePrefix(a: string, b: string)
    requires |a| > 0 && ScanOne(a).Ok?
    ensures ScanOne(a + b) == ScanOne(a)
  {
    var s := a + b;
    assert s[0] == a[0];
    if IsDigit(a[0]) {
      var n := SpanEnd(a, 0, IsDigit);
      SpanEndPrefix(a, b, 0, IsDigit);
      assert s[..n] == a[..n];
    } else if a[0] == '"' {
      var n := SpanEnd(a, 1, IsNotQuote);
      SpanEndPrefix(a, b, 1, IsNotQuote);
      assert s[1..n] == a[1..n];
    } else if IsLetter(a[0]) {
      var n := SpanEnd(a, 0, IsLetter);
      SpanEndPrefix(a, b, 0, IsLetter);
      assert s[..n] == a[..n];
    }
  }

  /** Scanning is left to right with no lookahead past a completed token: once a prefix scans,
      the tokens of the whole input are the prefix's tokens followed by the rest's. */
  lemma {:induction false} LexAppend(a: string, b: string)
    requires Lex(a).Ok?
    ensures Lex(a + b) == Prefix(Lex(a).value, Lex(b))
    decreases |a|
  {
    if a == [] {
      assert a + b == b;
      assert Lex(b).Ok? ==> [] + Lex(b).value == Lex(b).value;
    } else {
      var step := ScanOne(a).value;
      ScanOnePrefix(a, b);
      assert (a + b)[step.length..] == a[step.length..] + b;
      LexAppend(a[step.length..], b);
      PrefixPrefix(step.emitted, Lex(a[step.length..]).value, Lex(b));
    }
  }

  /** A character in no recognised class stops the scanner once it is reached. */
  lemma LexRejectsUnknown(a: string, c: char, b: string)
    requires Lex(a).Ok? && IsUnknown(c)
    ensures Lex(a + [c] + b) == Fail(UnknownCharacter(c))
  {
    LexAppend(a, [c] + b);
    assert a + [c] + b == a + ([c] + b);
  }

  /** Input that ends in a digit or a letter never scans: the run (or the unterminated
      string) holding the last character reads past the end. */
  lemma {:induction false} LexTrailingRunFails(s: string)
    requires |s| > 0 && (IsDigit(s[|s| - 1]) || IsLetter(s[|s| - 1]))
    ensures Lex(s).Fail?
    decreases |s|
  {
    if ScanOne(s).Ok? {
      var k := ScanOne(s).value.length;
      assert k < |s|;
      assert s[k..][|s| - k - 1] == s[|s| - 1];
      LexTrailingRunFails(s[k..]);
    }
  }

  /** When every character belongs to a recognised class, input that ends in a digit or a
      letter fails by reading past the end, never by an unknown character. */
  lemma {:induction false} LexTrailingRunExhausts(s: string)
    requires |s| > 0 && (IsDigit(s[|s| - 1]) || IsLetter(s[|s| - 1]))
    requires forall k :: 0 <= k < |s| ==> !IsUnknown(s[k])
    ensures Lex(s) == Fail(InputExhausted)
    decreases |s|
  {
    if ScanOne(s).Ok? {
      var k := ScanOne(s).value.length;
      assert k < |s|;
      assert s[k..][|s| - k - 1] == s[|s| - 1];
      LexTrailingRunExhausts(s[k..]);
    }
  }

  // ---------------------------------------------------------------------------
  // Spelling tokens back out

  /** The text of one token: its value, with quotes around a string. */
  function Spelling(t: Token): string {
    if t.kind == Str then "\"" + t.value + "\"" else t.value
  }

  /** The tokens written out, each followed by a space. */
  function Spell(ts: seq<Token>): string {
    if ts == [] then "" else Spelling(ts[0]) + " " + Spell(ts[1..])
  }

  /** A well-formed token followed by a space scans back to exactly that token. */
  lemma LexOne(t: Token)
    requires WellFormed(t)
    ensures Lex(Spelling(t) + " ") == Ok([t])
  {
    assert Lex(" ") == Ok([]) by {
      LexParenAndSpace(' ', "");
      assert [' '] + "" == " ";
    }
    assert [t] + [] == [t];
    match t.kind {
      case Paren =>
        LexParenAndSpace(t.value[0], " ");
        assert [t.value[0]] + " " == Spelling(t) + " ";
      case Number =>
        LexNumberRun(t.value, " ");
      case Name =>
        LexNameRun(t.value, " ");
      case Str =>
        LexStringLiteral(t.value, " ");
    }
  }

  /** Scanning inverts spelling: every list of well-formed tokens is scanned back from its
      spelling. */
  lemma {:induction false} LexSpell(ts: seq<Token>)
    requires forall t <- ts :: WellFormed(t)
    ensures Lex(Spell(ts)) == Ok(ts)
  {
    if ts == [] {
    } else {
      LexOne(ts[0]);
      LexAppend(Spelling(ts[0]) + " ", Spell(ts[1..]));
      LexSpell(ts[1..]);
      assert [ts[0]] + ts[1..] == ts;
    }
  }
}
