/** The field tokenizer: one left-to-right pass that classifies every
    character, gathers each run of digits into one `Value` and passes
    punctuation through. `Lex` states the result as maximal munch over the
    string; `Parse` is the source's loop with its digit buffer, proved to
    compute the same thing. */
module SubExpression {
  import opened ParseErrors
  import opened Decimal
  import opened CronToken

  /** Every character of `s` is in the field alphabet. */
  predicate AllTokenChars(s: string) {
    forall i :: 0 <= i < |s| ==> IsTokenChar(s[i])
  }

  /** The length of the longest all-digit prefix of `s`. */
  function DigitRun(s: string): (k: nat)
    ensures k <= |s| && AllDigits(s[..k])
    ensures k < |s| ==> !IsDigitChar(s[k])
  {
    if |s| == 0 || !IsDigitChar(s[0]) then 0
    else
      var k := DigitRun(s[1..]);
      assert s[..1 + k] == [s[0]] + s[1..][..k];
      1 + k
  }

  /** A prefix of exactly `k` digits followed by a non-digit (or the end) is the longest one. */
  lemma DigitRunUnique(s: string, k: nat)
    requires k <= |s| && AllDigits(s[..k])
    requires k < |s| ==> !IsDigitChar(s[k])
    ensures DigitRun(s) == k
  {
  }

  /** Reference tokenizer: a maximal run of digits becomes one `Value` holding
      its base-10 value, any other character is classified on its own, and the
      first character outside the alphabet ends the scan with its error. */
  function Lex(s: string): (r: Result<seq<Token>>)
    ensures r.Ok? <==> AllTokenChars(s)
    decreases |s|
  {
    if |s| == 0 then Ok([])
    else if IsDigitChar(s[0]) then
      var k := DigitRun(s);
      var rest := Lex(s[k..]);
      assert AllTokenChars(s) <==> AllTokenChars(s[k..]) by {
        assert forall i :: 0 <= i < k ==> s[i] == s[..k][i];
        assert forall i :: k <= i < |s| ==> s[i] == s[k..][i - k];
      }
      Prepend([Value(DecimalValue(s[..k]))], rest)
    else
      var rest := Lex(s[1..]);
      assert AllTokenChars(s) <==> IsTokenChar(s[0]) && AllTokenChars(s[1..]) by {
        assert forall i :: 1 <= i < |s| ==> s[i] == s[1..][i - 1];
      }
      match TryFrom(s[0])
      case Err(e) => Err(e)
      case Ok(t) => Prepend([t], rest)
  }

  /** The tokens the digit buffer turns into when it is flushed: exactly
      what tokenizing the buffered digits on their own gives, so one value for
      a non-empty run and nothing for an empty one. */
  function Flush(digits: string): (ts: seq<Token>)
    requires AllDigits(digits)
    ensures Lex(digits) == Ok(ts)
  {
    if |digits| > 0 then
      DigitRunUnique(digits, |digits|);
      assert digits[..|digits|] == digits;
      assert digits[|digits|..] == [];
      assert Lex(digits) == Prepend([Value(DecimalValue(digits))], Lex([]));
      assert [Value(DecimalValue(digits))] + [] == [Value(DecimalValue(digits))];
      [Value(DecimalValue(digits))]
    else
      []
  }

  /** Behind a pending run of digits, the string tokenizes as the run's value
      followed by whatever the rest tokenizes to. */
  lemma LexAfterRun(digits: string, s: string)
    requires AllDigits(digits) && (|s| > 0 ==> !IsDigitChar(s[0]))
    ensures Lex(digits + s) == Prepend(Flush(digits), Lex(s))
  {
    var x := digits + s;
    if |digits| == 0 {
      assert x == s;
    } else {
      assert x[..|digits|] == digits;
      assert x[|digits|..] == s;
      DigitRunUnique(x, |digits|);
    }
  }

  /** A character outside the alphabet ends the scan with its error, whatever digits are pending. */
  lemma LexStepInvalid(digits: string, s: string)
    requires AllDigits(digits) && |s| > 0 && !IsTokenChar(s[0])
    ensures Lex(digits + s) == Err(InvalidToken(s[0]))
  {
    LexAfterRun(digits, s);
  }

  /** Punctuation flushes the pending run and then emits its own token. */
  lemma LexStepPunct(digits: string, s: string)
    requires AllDigits(digits) && |s| > 0 && IsPunctChar(s[0])
    ensures Lex(digits + s) == Prepend(Flush(digits) + [TryFrom(s[0]).value], Lex(s[1..]))
  {
    LexAfterRun(digits, s);
    PrependPrepend(Flush(digits), [TryFrom(s[0]).value], Lex(s[1..]));
  }

  /** What the scan has established after `i` characters: the tokens emitted
      so far followed by the tokens of the pending digits and the unread rest
      make up the whole result. */
  predicate Scanned(input: string, i: nat, tokens: seq<Token>, digits: string)
    requires i <= |input| && AllDigits(digits)
  {
    Lex(input) == Prepend(tokens, Lex(digits + input[i..]))
  }

  /** A digit emits nothing: the tokens so far stay as they are and the digit
      joins the pending run. */
  lemma ScanDigit(input: string, i: nat, tokens: seq<Token>, digits: string)
    requires i < |input| && AllDigits(digits) && IsDigitChar(input[i])
    requires Scanned(input, i, tokens, digits)
    ensures AllDigits(digits + [input[i]]) && Scanned(input, i + 1, tokens, digits + [input[i]])
  {
    assert digits + input[i..] == (digits + [input[i]]) + input[i + 1..];
  }

  /** Punctuation moves the flushed run and its own token into the emitted
      tokens and empties the buffer. */
  lemma ScanPunct(input: string, i: nat, tokens: seq<Token>, digits: string)
    requires i < |input| && AllDigits(digits) && IsPunctChar(input[i])
    requires Scanned(input, i, tokens, digits)
    ensures Scanned(input, i + 1, tokens + Flush(digits) + [TryFrom(input[i]).value], [])
  {
    var t := TryFrom(input[i]).value;
    var emitted := Flush(digits) + [t];
    var rest := Lex(input[i + 1..]);
    assert input[i..][0] == input[i] && input[i..][1..] == input[i + 1..];
    LexStepPunct(digits, input[i..]);
    assert Lex(digits + input[i..]) == Prepend(emitted, rest);
    PrependPrepend(tokens, emitted, rest);
    assert tokens + emitted == tokens + Flush(digits) + [t];
    assert [] + input[i + 1..] == input[i + 1..];
  }

  /** A rejected character decides the whole result, whatever came before it. */
  lemma ScanInvalid(input: string, i: nat, tokens: seq<Token>, digits: string)
    requires i < |input| && AllDigits(digits) && !IsTokenChar(input[i])
    requires Scanned(input, i, tokens, digits)
    ensures Lex(input) == Err(InvalidToken(input[i]))
  {
    assert input[i..][0] == input[i];
    LexStepInvalid(digits, input[i..]);
  }

  /** At the end of input the result is the emitted tokens plus the flushed buffer. */
  lemma ScanEnd(input: string, tokens: seq<Token>, digits: string)
    requires AllDigits(digits) && Scanned(input, |input|, tokens, digits)
    ensures Lex(input) == Ok(tokens + Flush(digits))
  {
    assert digits + input[|input|..] == digits;
  }

  /** The tokenizer as the source writes it: a single pass that keeps the
      tokens emitted so far and the digits seen since the last punctuation,
      flushing those digits as one value before each punctuation token and at
      the end. The first unknown character returns its error at once. */
  method Parse(input: string) returns (r: Result<seq<Token>>)
    ensures r == Lex(input)
    ensures r.Ok? <==> AllTokenChars(input)
  {
    var tokens: seq<Token> := [];
    var lastDigits: string := [];
    var i := 0;
    assert lastDigits + input[i..] == input;
    while i < |input|
      invariant 0 <= i <= |input|
      invariant AllDigits(lastDigits)
      invariant Scanned(input, i, tokens, lastDigits)
    {
      var curr := input[i];
      if !IsTokenChar(curr) {
        ScanInvalid(input, i, tokens, lastDigits);
      }
      var token :- TryFrom(curr);
      if token.Value? {
        ScanDigit(input, i, tokens, lastDigits);
        DigitCharOfValue(curr);
        lastDigits := lastDigits + [DigitChar(token.n)];
      } else {
        ScanPunct(input, i, tokens, lastDigits);
        ghost var expected := tokens + Flush(lastDigits) + [token];
        if |lastDigits| > 0 {
          tokens := tokens + [Value(DecimalValue(lastDigits))];
          lastDigits := [];
        }
        tokens := tokens + [token];
        assert tokens == expected;
      }
      i := i + 1;
    }
    ScanEnd(input, tokens, lastDigits);
    ghost var expected := tokens + Flush(lastDigits);
    if |lastDigits| > 0 {
      tokens := tokens + [Value(DecimalValue(lastDigits))];
    }
    assert tokens == expected;
    r := Ok(tokens);
  }
}
