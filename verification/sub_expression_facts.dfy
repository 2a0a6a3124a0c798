/** What the field tokenizer promises about its output as a whole: when it
    fails and with which character, how digit runs are grouped into values,
    that punctuation passes through one-for-one, that no two values touch, and
    that it inverts the rendering of a token list back into text. */
module SubExpressionFacts {
  import opened ParseErrors
  import opened Decimal
  import opened CronToken
  import opened SubExpression

  // ---------------------------------------------------------------------------
  // One step of the tokenizer, seen from its result

  /** A successful result opens with the value of the leading digit run. */
  lemma LexDigitHead(s: string)
    requires |s| > 0 && IsDigitChar(s[0]) && Lex(s).Ok?
    ensures Lex(s[DigitRun(s)..]).Ok?
    ensures Lex(s).value == [Value(DecimalValue(s[..DigitRun(s)]))] + Lex(s[DigitRun(s)..]).value
  {
  }

  /** A successful result opens with the token of the leading punctuation character. */
  lemma LexPunctHead(s: string)
    requires |s| > 0 && !IsDigitChar(s[0]) && Lex(s).Ok?
    ensures IsPunctChar(s[0]) && Lex(s[1..]).Ok?
    ensures Lex(s).value == [TryFrom(s[0]).value] + Lex(s[1..]).value
  {
  }

  /** `[t] + rest` has head `t` and tail `rest`. */
  lemma ConsTail(t: Token, rest: seq<Token>)
    ensures ([t] + rest)[0] == t && ([t] + rest)[1..] == rest
  {
  }

  // ---------------------------------------------------------------------------
  // Errors: the first character outside the alphabet decides the error

  /** The index of the first character of `s` outside the field alphabet. */
  function FirstInvalid(s: string): (i: nat)
    requires !AllTokenChars(s)
    ensures i < |s| && !IsTokenChar(s[i]) && AllTokenChars(s[..i])
  {
    if !IsTokenChar(s[0]) then 0
    else
      assert forall j :: 1 <= j < |s| ==> s[j] == s[1..][j - 1];
      var i := 1 + FirstInvalid(s[1..]);
      assert forall j :: 1 <= j < i ==> s[..i][j] == s[1..][..i - 1][j - 1];
      i
  }

  /** Any character outside the alphabet with only alphabet characters before it is the one reported. */
  lemma {:induction false} LexErrorAt(s: string, i: nat)
    requires i < |s| && !IsTokenChar(s[i]) && AllTokenChars(s[..i])
    ensures Lex(s) == Err(InvalidToken(s[i]))
    decreases |s|
  {
    if IsDigitChar(s[0]) {
      var k := DigitRun(s);
      assert s[k..][i - k] == s[i];
      assert s[k..][..i - k] == s[..i][k..];
      LexErrorAt(s[k..], i - k);
    } else if IsTokenChar(s[0]) {
      assert s[1..][i - 1] == s[i];
      assert s[1..][..i - 1] == s[..i][1..];
      LexErrorAt(s[1..], i - 1);
    }
  }

  /** Tokenizing fails exactly when some character is outside the alphabet,
      and then the error names the first such character. */
  lemma {:induction false} LexError(s: string)
    ensures Lex(s).Err? <==> !AllTokenChars(s)
    ensures !AllTokenChars(s) ==> Lex(s) == Err(InvalidToken(s[FirstInvalid(s)]))
  {
    if !AllTokenChars(s) {
      LexErrorAt(s, FirstInvalid(s));
    }
  }

  // ---------------------------------------------------------------------------
  // No two values are adjacent

  predicate NoAdjacentValues(ts: seq<Token>) {
    forall j :: 0 < j < |ts| ==> !(ts[j - 1].Value? && ts[j].Value?)
  }

  /** Text that does not start with a digit does not tokenize to a leading value. */
  lemma LexHeadNotValue(s: string)
    requires |s| > 0 && !IsDigitChar(s[0]) && Lex(s).Ok?
    ensures |Lex(s).value| > 0 && !Lex(s).value[0].Value?
  {
  }

  /** A digit run is flushed only in front of punctuation or at the end, so
      the tokenizer never emits two values in a row. */
  lemma {:induction false} LexNoAdjacentValues(s: string)
    requires Lex(s).Ok?
    ensures NoAdjacentValues(Lex(s).value)
    decreases |s|
  {
    if |s| > 0 {
      var ts := Lex(s).value;
      var k := if IsDigitChar(s[0]) then DigitRun(s) else 1;
      var rest := Lex(s[k..]).value;
      assert ts == [ts[0]] + rest;
      LexNoAdjacentValues(s[k..]);
      if |rest| > 0 && ts[0].Value? {
        LexHeadNotValue(s[k..]);
      }
      forall j | 1 < j < |ts|
        ensures !(ts[j - 1].Value? && ts[j].Value?)
      {
        assert ts[j - 1] == rest[j - 2] && ts[j] == rest[j - 1];
      }
    }
  }

  // ---------------------------------------------------------------------------
  // Punctuation passes through one-for-one and in order

  /** The tokens of `ts` that are not values, in order. */
  function Puncts(ts: seq<Token>): (ps: seq<Token>)
    ensures |ps| <= |ts|
    ensures forall j :: 0 <= j < |ps| ==> !ps[j].Value?
  {
    if |ts| == 0 then [] else (if ts[0].Value? then [] else [ts[0]]) + Puncts(ts[1..])
  }

  /** The characters of `s` that are not digits, in order. */
  function NonDigits(s: string): (cs: string)
    ensures |cs| <= |s|
    ensures forall j :: 0 <= j < |cs| ==> !IsDigitChar(cs[j])
  {
    if |s| == 0 then [] else (if IsDigitChar(s[0]) then [] else [s[0]]) + NonDigits(s[1..])
  }

  lemma {:induction false} NonDigitsSkipDigits(s: string, k: nat)
    requires k <= |s| && AllDigits(s[..k])
    ensures NonDigits(s) == NonDigits(s[k..])
  {
    if k > 0 {
      assert s[..k][0] == s[0];
      assert s[1..][..k - 1] == s[..k][1..];
      NonDigitsSkipDigits(s[1..], k - 1);
      assert s[1..][k - 1..] == s[k..];
    }
  }

  /** Every non-digit character becomes exactly one token, the one the
      classifier gives it, and these tokens keep the characters' order; so
      the output holds as many non-value tokens as the input has non-digits. */
  lemma {:induction false} LexPunctuation(s: string)
    requires Lex(s).Ok?
    ensures |Puncts(Lex(s).value)| == |NonDigits(s)|
    ensures forall j :: 0 <= j < |NonDigits(s)| ==> TryFrom(NonDigits(s)[j]) == Ok(Puncts(Lex(s).value)[j])
    decreases |s|
  {
    if |s| > 0 {
      var ts := Lex(s).value;
      if IsDigitChar(s[0]) {
        var k := DigitRun(s);
        var rest := Lex(s[k..]).value;
        assert ts == [ts[0]] + rest && ts[0].Value?;
        assert ([ts[0]] + rest)[1..] == rest;
        NonDigitsSkipDigits(s, k);
        LexPunctuation(s[k..]);
      } else {
        var rest := Lex(s[1..]).value;
        assert ts == [ts[0]] + rest && ts[0] == TryFrom(s[0]).value;
        assert ([ts[0]] + rest)[1..] == rest;
        LexPunctuation(s[1..]);
        assert Puncts(ts) == [ts[0]] + Puncts(rest);
        assert NonDigits(s) == [s[0]] + NonDigits(s[1..]);
      }
    }
  }

  // ---------------------------------------------------------------------------
  // Each maximal digit run becomes one value

  /** The numbers carried by the values of `ts`, in order. */
  function Values(ts: seq<Token>): (ns: seq<nat>)
    ensures |ns| <= |ts|
  {
    if |ts| == 0 then [] else (if ts[0].Value? then [ts[0].n] else []) + Values(ts[1..])
  }

  /** `s` cut at every non-digit character: the pieces between separators,
      empty ones included. */
  function Pieces(s: string): (ps: seq<string>)
    ensures |ps| >= 1
    ensures forall j :: 0 <= j < |ps| ==> AllDigits(ps[j])
  {
    if |s| == 0 then [[]]
    else
      var ps := Pieces(s[1..]);
      if IsDigitChar(s[0]) then [[s[0]] + ps[0]] + ps[1..] else [[]] + ps
  }

  /** The non-empty pieces among `ps`, in order. */
  function NonEmpty(ps: seq<string>): (qs: seq<string>)
    ensures forall j :: 0 <= j < |qs| ==> |qs[j]| > 0
    ensures (forall j :: 0 <= j < |ps| ==> AllDigits(ps[j])) ==> forall j :: 0 <= j < |qs| ==> AllDigits(qs[j])
  {
    if |ps| == 0 then [] else (if ps[0] == [] then [] else [ps[0]]) + NonEmpty(ps[1..])
  }

  lemma NonEmptyCons(p: string, ps: seq<string>)
    ensures NonEmpty([p] + ps) == (if p == [] then [] else [p]) + NonEmpty(ps)
  {
    assert ([p] + ps)[0] == p && ([p] + ps)[1..] == ps;
  }

  /** The maximal runs of digits in `s`, left to right. */
  function MaximalRuns(s: string): (runs: seq<string>)
    ensures forall j :: 0 <= j < |runs| ==> |runs[j]| > 0 && AllDigits(runs[j])
  {
    NonEmpty(Pieces(s))
  }

  /** The base-10 values of a list of digit runs. */
  function RunValues(runs: seq<string>): (ns: seq<nat>)
    requires forall j :: 0 <= j < |runs| ==> AllDigits(runs[j])
    ensures |ns| == |runs|
  {
    seq(|runs|, j requires 0 <= j < |runs| => DecimalValue(runs[j]))
  }

  /** Cutting after a leading run of `k` digits glues that run onto the first piece of the rest. */
  lemma {:induction false} PiecesDigitPrefix(s: string, k: nat)
    requires k <= |s| && AllDigits(s[..k])
    ensures Pieces(s) == [s[..k] + Pieces(s[k..])[0]] + Pieces(s[k..])[1..]
  {
    if k == 0 {
      assert s[..0] + Pieces(s)[0] == Pieces(s)[0];
      assert s[0..] == s;
    } else {
      assert s[..k][0] == s[0];
      assert s[1..][..k - 1] == s[..k][1..];
      PiecesDigitPrefix(s[1..], k - 1);
      assert s[1..][k - 1..] == s[k..];
      var r := Pieces(s[1..]);
      var q := Pieces(s[k..]);
      assert r == [s[1..][..k - 1] + q[0]] + q[1..];
      assert r[0] == s[1..][..k - 1] + q[0] && r[1..] == q[1..];
      assert Pieces(s) == [[s[0]] + r[0]] + r[1..];
      assert [s[0]] + (s[1..][..k - 1] + q[0]) == s[..k] + q[0];
    }
  }

  /** Text that does not start with a digit starts with an empty piece. */
  lemma PiecesNonDigitHead(s: string)
    requires |s| == 0 || !IsDigitChar(s[0])
    ensures Pieces(s) == [[]] + Pieces(s)[1..]
  {
  }

  /** A leading run of digits is a piece of its own. */
  lemma PiecesAfterRun(s: string)
    requires |s| > 0 && IsDigitChar(s[0])
    ensures Pieces(s) == [s[..DigitRun(s)]] + Pieces(s[DigitRun(s)..])[1..]
    ensures Pieces(s[DigitRun(s)..]) == [[]] + Pieces(s[DigitRun(s)..])[1..]
  {
    var k := DigitRun(s);
    PiecesDigitPrefix(s, k);
    PiecesNonDigitHead(s[k..]);
    assert s[..k] + Pieces(s[k..])[0] == s[..k];
  }

  /** A leading run of digits is the first maximal run. */
  lemma MaximalRunsDigitHead(s: string)
    requires |s| > 0 && IsDigitChar(s[0])
    ensures MaximalRuns(s) == [s[..DigitRun(s)]] + MaximalRuns(s[DigitRun(s)..])
  {
    var k := DigitRun(s);
    var run := s[..k];
    var tail := Pieces(s[k..])[1..];
    PiecesAfterRun(s);
    assert Pieces(s) == [run] + tail;
    assert Pieces(s[k..]) == [[]] + tail;
    NonEmptyCons(run, tail);
    NonEmptyCons([], tail);
    assert MaximalRuns(s) == [run] + NonEmpty(tail);
    assert MaximalRuns(s[k..]) == NonEmpty(tail);
  }

  /** A leading non-digit only separates pieces. */
  lemma MaximalRunsNonDigitHead(s: string)
    requires |s| > 0 && !IsDigitChar(s[0])
    ensures MaximalRuns(s) == MaximalRuns(s[1..])
  {
    assert Pieces(s) == [[]] + Pieces(s[1..]);
    NonEmptyCons([], Pieces(s[1..]));
  }

  /** Each maximal run of digits becomes exactly one value, in order, carrying
      the run's base-10 value. */
  lemma {:induction false} LexValues(s: string)
    requires Lex(s).Ok?
    ensures Values(Lex(s).value) == RunValues(MaximalRuns(s))
    decreases |s|
  {
    if |s| > 0 {
      var ts := Lex(s).value;
      if IsDigitChar(s[0]) {
        var k := DigitRun(s);
        LexDigitHead(s);
        LexValues(s[k..]);
        MaximalRunsDigitHead(s);
        ConsTail(ts[0], Lex(s[k..]).value);
      } else {
        LexPunctHead(s);
        LexValues(s[1..]);
        MaximalRunsNonDigitHead(s);
        ConsTail(ts[0], Lex(s[1..]).value);
      }
    }
  }

  /** Every token is either a value or punctuation. */
  lemma {:induction false} ValuesAndPuncts(ts: seq<Token>)
    ensures |Values(ts)| + |Puncts(ts)| == |ts|
  {
    if |ts| > 0 {
      ValuesAndPuncts(ts[1..]);
    }
  }

  /** The tokenizer emits one token per maximal digit run plus one per non-digit character. */
  lemma {:induction false} LexLength(s: string)
    requires Lex(s).Ok?
    ensures |Lex(s).value| == |MaximalRuns(s)| + |NonDigits(s)|
  {
    ValuesAndPuncts(Lex(s).value);
    LexValues(s);
    LexPunctuation(s);
  }

  // ---------------------------------------------------------------------------
  // Rendering tokens back into text

  /** The text of one token; a value is written as its canonical numeral. */
  function Spell(t: Token): (s: string)
    ensures |s| > 0
    ensures IsDigitChar(s[0]) <==> t.Value?
  {
    match t
    case Value(n) => Numeral(n)
    case _ => [CharOf(t)]
  }

  /** The text of a token list. */
  function Render(ts: seq<Token>): (s: string)
    ensures |ts| > 0 ==> |s| > 0 && (IsDigitChar(s[0]) <==> ts[0].Value?)
  {
    if |ts| == 0 then [] else Spell(ts[0]) + Render(ts[1..])
  }

  /** No run of digits in `s` starts with a `0` unless the run is `0` alone. */
  predicate NoLeadingZeros(s: string) {
    forall i :: 0 <= i < |s| - 1 && s[i] == '0' && IsDigitChar(s[i + 1]) ==> 0 < i && IsDigitChar(s[i - 1])
  }

  /** Tokenizing the text of a token list gives the list back, as long as the
      list has no two values in a row (two adjacent numerals would merge). */
  lemma {:induction false} LexOfRender(ts: seq<Token>)
    requires NoAdjacentValues(ts)
    ensures Lex(Render(ts)) == Ok(ts)
  {
    if |ts| > 0 {
      var rest := Render(ts[1..]);
      assert NoAdjacentValues(ts[1..]) by {
        assert forall j :: 0 < j < |ts| - 1 ==> ts[1..][j - 1] == ts[j] && ts[1..][j] == ts[j + 1];
      }
      LexOfRender(ts[1..]);
      match ts[0]
      case Value(n) =>
        var d := Numeral(n);
        if |ts| > 1 {
          assert ts[1] == ts[1..][0];
        }
        LexAfterRun(d, rest);
        DecimalValueOfNumeral(n);
        assert [Value(n)] + ts[1..] == ts;
      case _ =>
        var c := CharOf(ts[0]);
        var x := [c] + rest;
        assert x[0] == c && x[1..] == rest;
        assert Lex(x) == Prepend([ts[0]], Lex(rest));
        assert [ts[0]] + ts[1..] == ts;
    }
  }

  lemma RenderCons(t: Token, rest: seq<Token>)
    ensures Render([t] + rest) == Spell(t) + Render(rest)
  {
    ConsTail(t, rest);
  }

  /** Dropping a leading digit run keeps a text free of leading zeros. */
  lemma NoLeadingZerosAfterRun(s: string, k: nat)
    requires k <= |s| && (k < |s| ==> !IsDigitChar(s[k])) && NoLeadingZeros(s)
    ensures NoLeadingZeros(s[k..])
  {
    forall i | 0 <= i < |s[k..]| - 1 && s[k..][i] == '0' && IsDigitChar(s[k..][i + 1])
      ensures 0 < i && IsDigitChar(s[k..][i - 1])
    {
      assert s[k..][i] == s[k + i] && s[k..][i + 1] == s[k + i + 1];
      assert s[k..][i - 1] == s[k + i - 1];
    }
  }

  /** Dropping a leading non-digit keeps a text free of leading zeros. */
  lemma NoLeadingZerosAfterNonDigit(s: string)
    requires |s| > 0 && !IsDigitChar(s[0]) && NoLeadingZeros(s)
    ensures NoLeadingZeros(s[1..])
  {
    forall i | 0 <= i < |s[1..]| - 1 && s[1..][i] == '0' && IsDigitChar(s[1..][i + 1])
      ensures 0 < i && IsDigitChar(s[1..][i - 1])
    {
      assert s[1..][i] == s[1 + i] && s[1..][i + 1] == s[2 + i];
      assert s[1..][i - 1] == s[i];
    }
  }

  /** In a text free of leading zeros the leading digit run is a canonical numeral. */
  lemma LeadingRunCanonical(s: string)
    requires |s| > 0 && IsDigitChar(s[0]) && NoLeadingZeros(s)
    ensures Canonical(s[..DigitRun(s)])
  {
  }

  /** The inductive step of `RenderOfLex` for a text that opens with digits. */
  lemma RenderOfLexRun(s: string)
    requires |s| > 0 && IsDigitChar(s[0]) && Lex(s).Ok? && Canonical(s[..DigitRun(s)])
    requires Lex(s[DigitRun(s)..]).Ok? && Render(Lex(s[DigitRun(s)..]).value) == s[DigitRun(s)..]
    ensures Render(Lex(s).value) == s[..DigitRun(s)] + s[DigitRun(s)..]
  {
    var k := DigitRun(s);
    LexDigitHead(s);
    RenderNumeralCons(s[..k], Lex(s[k..]).value, s[k..]);
  }

  lemma SplitJoin(s: string, k: nat)
    requires k <= |s|
    ensures s[..k] + s[k..] == s
  {
  }

  lemma RenderNumeralCons(run: string, rest: seq<Token>, tail: string)
    requires AllDigits(run) && Canonical(run) && Render(rest) == tail
    ensures Render([Value(DecimalValue(run))] + rest) == run + tail
  {
    NumeralOfDecimalValue(run);
    RenderCons(Value(DecimalValue(run)), rest);
  }

  /** Rendering the tokens of a text gives the text back, as long as no
      numeral in it has a leading zero (`"07"` comes back as `"7"`). */
  lemma {:induction false} RenderOfLex(s: string)
    requires Lex(s).Ok? && NoLeadingZeros(s)
    ensures Render(Lex(s).value) == s
    decreases |s|
  {
    if |s| > 0 {
      var ts := Lex(s).value;
      if IsDigitChar(s[0]) {
        var k := DigitRun(s);
        NoLeadingZerosAfterRun(s, k);
        LexDigitHead(s);
        RenderOfLex(s[k..]);
        LeadingRunCanonical(s);
        RenderOfLexRun(s);
        SplitJoin(s, k);
      } else {
        LexPunctHead(s);
        CharOfTryFrom(s[0]);
        NoLeadingZerosAfterNonDigit(s);
        RenderOfLex(s[1..]);
        RenderCons(ts[0], Lex(s[1..]).value);
        assert [s[0]] + s[1..] == s;
      }
    }
  }

  /** Tokenizing is stable under a render: whatever a text tokenizes to, its
      rendering tokenizes to the same list. */
  lemma LexRenderLex(s: string)
    requires Lex(s).Ok?
    ensures Lex(Render(Lex(s).value)) == Lex(s)
  {
    LexNoAdjacentValues(s);
    LexOfRender(Lex(s).value);
  }

  // ---------------------------------------------------------------------------
  // The input/output pairs listed in the unit tests at parser.rs:82-86

  lemma ExampleRange()
    ensures Lex("1-12") == Ok([Value(1), Dash, Value(12)])
  {
    assert Numeral(12) == "12";
    assert Render([Value(1), Dash, Value(12)]) == "1-12";
    LexOfRender([Value(1), Dash, Value(12)]);
  }

  lemma ExampleStep()
    ensures Lex("*/15") == Ok([Asterisk, Slash, Value(15)])
  {
    assert Numeral(15) == "15";
    assert Render([Asterisk, Slash, Value(15)]) == "*/15";
    LexOfRender([Asterisk, Slash, Value(15)]);
  }

  lemma ExampleZero()
    ensures Lex("0") == Ok([Value(0)])
  {
    assert Render([Value(0)]) == "0";
    LexOfRender([Value(0)]);
  }

  lemma ExampleList()
    ensures Lex("1,19") == Ok([Value(1), Comma, Value(19)])
  {
    assert Numeral(19) == "19";
    assert Render([Value(1), Comma, Value(19)]) == "1,19";
    LexOfRender([Value(1), Comma, Value(19)]);
  }

  lemma ExampleAny()
    ensures Lex("*") == Ok([Asterisk])
  {
    assert Render([Asterisk]) == "*";
    LexOfRender([Asterisk]);
  }

  /** The empty field has no tokens. */
  lemma EmptyField()
    ensures Lex("") == Ok([])
  {
  }
}
