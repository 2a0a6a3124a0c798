# Cron field tokenizer

A Dafny model of the lexical layer of a cron expression parser written in
Rust. One cron field (`"*/15"`, `"1-12"`, `"1,19"`, …) is turned into a list
of tokens: `Value(n)`, `Comma`, `Dash`, `Asterisk`, `Slash`. The model covers
three pieces of the source:

- the character classifier `Token::try_from(char)`, which maps each of
  `, - * /` to its token and each digit to a one-digit `Value`, and rejects
  everything else with `ParseError::InvalidToken(c)`;
- the adjacency table `Token::check(&self, next)`, which says for every pair
  of tokens whether `next` may follow `self`;
- the field tokenizer `SubExpressionParser::parse`, a single left-to-right
  pass that gathers runs of digits into one `Value` (read in base 10),
  flushes that run before each punctuation token and at the end, and stops at
  the first character the classifier rejects.

Two modules mirror the source files: `CronToken` mirrors `token.rs`, and
`SubExpression` mirrors the tokenizer in `parser.rs`. `ParseErrors` holds
the error type declared in `parser.rs`. `Decimal` and `SubExpressionFacts`
are supporting modules with no source file of their own. In detail:

- `ParseErrors` (`parse_error.dfy`): `ParseError` and a failure-compatible
  `Result`, so that `:-` plays the part of Rust's `?`.
- `Decimal` (`decimal.dfy`): digit characters, `to_digit`/`from_digit`, the
  base-10 value of a digit run (what `str::parse` computes), and the canonical
  numeral of a number as its inverse.
- `CronToken` (`token.dfy`): `Token`, `Check`, `TryFrom`, and `CharOf`, the
  inverse of `TryFrom`.
- `SubExpression` (`sub_expression.dfy`): `Lex`, a reference definition of
  the tokenizer by maximal munch, and `Parse`, the source's loop with its
  token list and digit buffer, proved equal to `Lex`.
- `SubExpressionFacts` (`sub_expression_facts.dfy`): the properties of the
  tokenizer as a whole. They cover the error on the first invalid character,
  no two adjacent values, punctuation passed through one-for-one, one value
  per maximal digit run, round trips through a renderer, and the
  input/output pairs listed in the source's unit tests.

Names follow the code. The comment `// 0-9` on `Value` describes only what the
classifier builds. The tokenizer builds `Value(n)` for whole runs such as
`15`, and the model follows the code.

The tokenizer never consults the adjacency table. `Check` is modelled as the
table it is, together with what the table implies for a whole sequence.

## Model

| member | source | states |
|---|---|---|
| CronToken.Check | parser_rust/src/cron/token.rs:23-36 | After a `Value`, exactly `Comma`, `Dash` and `Slash` may follow. After `Comma`, `Dash` or `Slash`, exactly a `Value` may follow. After `Asterisk`, only `Slash` may follow. Every pair gets an answer. |
| CronToken.CheckIgnoresNumbers | parser_rust/src/cron/token.rs:24-35 | The table depends only on the shape of a `Value`, never on the number it carries. |
| CronToken.AdjacentShape | parser_rust/src/cron/token.rs:24-35 | A sequence passes the table on every adjacent pair exactly when three things hold. `Asterisk` appears only first. `Asterisk` is followed only by `Slash`. Elsewhere, values and operators alternate. |
| CronToken.TryFrom | parser_rust/src/cron/token.rs:42-50 | `,` `-` `*` `/` map to `Comma`, `Dash`, `Asterisk`, `Slash`. A digit maps to `Value` of its numeric value, which is at most 9. Success happens exactly for those fourteen characters; any other character fails with `InvalidToken` of that character. |
| CronToken.CharOf | parser_rust/src/cron/token.rs:43-48 | Every single-character token is produced by `TryFrom` from the character `CharOf` gives. |
| CronToken.CharOfTryFrom | parser_rust/src/cron/token.rs:43-48 | `TryFrom` loses nothing: the token it builds gives back the character it came from. |
| Decimal.DigitValue | parser_rust/src/cron/token.rs:48 | `to_digit(10)` of a digit character is at most 9. The character lies that many places past `0`. |
| Decimal.DigitChar | parser_rust/src/cron/parser.rs:42 | `from_digit` of a value below ten is a digit character whose value is that number. |
| Decimal.DigitCharOfValue | parser_rust/src/cron/parser.rs:42 | `from_digit` undoes `to_digit`. So the digit buffer holds the input's own characters, and its `unwrap` never fails. |
| Decimal.DecimalValue | parser_rust/src/cron/parser.rs:46 | The base-10 value of a buffered run of `k` digits is below `10^k`, and a leading zero adds nothing to it. |
| Decimal.DecimalValueOfNumeral | parser_rust/src/cron/parser.rs:46 | Reading the canonical numeral of `n` in base 10 gives `n`. |
| Decimal.NumeralOfDecimalValue | parser_rust/src/cron/parser.rs:46 | For a digit run without a leading zero, the canonical numeral of its base-10 value is the run itself. |
| SubExpression.DigitRun | parser_rust/src/cron/parser.rs:41-44 | The digits gathered before the next non-digit form the longest all-digit prefix: every character in it is a digit, and the one after it is not. |
| SubExpression.Lex | parser_rust/src/cron/parser.rs:34-63 | The reference tokenizer succeeds exactly when every character is a digit or one of `, - * /`. |
| SubExpression.Parse | parser_rust/src/cron/parser.rs:34-63 | The loop with its token list and digit buffer returns exactly what the reference tokenizer `Lex` returns. It succeeds exactly when every character is in the alphabet. |
| SubExpression.ScanDigit | parser_rust/src/cron/parser.rs:41-42 | A digit emits no token. The tokens so far stay unchanged and the digit joins the pending buffer. |
| SubExpression.LexStepInvalid | parser_rust/src/cron/parser.rs:39 | A rejected character ends the whole call with its error, whatever digits are pending and whatever follows. |
| SubExpression.LexStepPunct | parser_rust/src/cron/parser.rs:43-53 | A punctuation character first flushes the pending run as one value, then emits its own token. |
| SubExpression.LexAfterRun | parser_rust/src/cron/parser.rs:44-50 | A pending digit run followed by a non-digit or by the end comes out as that run's single value, followed by the tokens of the rest. |
| SubExpression.Flush | parser_rust/src/cron/parser.rs:57-60 | Flushing the buffer (here and at lines 44-49) gives exactly the tokens of the buffered digits on their own: one value for a non-empty run, nothing for an empty one. |
| SubExpression.ScanEnd | parser_rust/src/cron/parser.rs:57-62 | At the end of input, the result is the tokens emitted so far followed by the flushed buffer. |
| SubExpressionFacts.FirstInvalid | parser_rust/src/cron/parser.rs:38-39 | The index of the first character outside the alphabet: that character is rejected, and every character before it is accepted. |
| SubExpressionFacts.LexErrorAt | parser_rust/src/cron/parser.rs:38-39 | A rejected character with only accepted characters before it is the one the error names. |
| SubExpressionFacts.LexError | parser_rust/src/cron/parser.rs:38-39 | Tokenizing fails exactly when some character is outside the alphabet. The error then names the first such character. |
| SubExpressionFacts.LexNoAdjacentValues | parser_rust/src/cron/parser.rs:41-60 | A successful result never holds two consecutive `Value` tokens. |
| SubExpressionFacts.LexPunctuation | parser_rust/src/cron/parser.rs:43-53 | The non-value tokens are the classifier's tokens for the non-digit characters, one for one and in input order. So there are as many of them as there are non-digit characters. |
| SubExpressionFacts.LexValues | parser_rust/src/cron/parser.rs:41-60 | Cut the input at every non-digit and keep the non-empty pieces: these are the maximal digit runs. The values of the result are exactly the base-10 values of those runs, in order. |
| SubExpressionFacts.ValuesAndPuncts | parser_rust/src/cron/token.rs:7-13 | Every token is either a value or one of the four punctuation tokens. |
| SubExpressionFacts.LexLength | parser_rust/src/cron/parser.rs:38-62 | The result has one token per maximal digit run plus one per non-digit character. |
| SubExpressionFacts.LexOfRender | parser_rust/src/cron/parser.rs:34-63 | A token list with no two adjacent values is written out with canonical numerals. Tokenizing that text gives the list back. |
| SubExpressionFacts.RenderOfLex | parser_rust/src/cron/parser.rs:34-63 | Writing out the tokens of a text gives the text back, provided no numeral in it has a leading zero. |
| SubExpressionFacts.LexRenderLex | parser_rust/src/cron/parser.rs:34-63 | Writing out the tokens of any accepted text and tokenizing again gives the same tokens. |
| SubExpressionFacts.ExampleRange | parser_rust/src/cron/parser.rs:82 | `"1-12"` gives `[Value(1), Dash, Value(12)]`. |
| SubExpressionFacts.ExampleStep | parser_rust/src/cron/parser.rs:83 | `"*/15"` gives `[Asterisk, Slash, Value(15)]`. |
| SubExpressionFacts.ExampleZero | parser_rust/src/cron/parser.rs:84 | `"0"` gives `[Value(0)]`. |
| SubExpressionFacts.ExampleList | parser_rust/src/cron/parser.rs:85 | `"1,19"` gives `[Value(1), Comma, Value(19)]`. |
| SubExpressionFacts.ExampleAny | parser_rust/src/cron/parser.rs:86 | `"*"` gives `[Asterisk]`. |
| SubExpressionFacts.EmptyField | parser_rust/src/cron/parser.rs:62 | The empty field gives the empty token list. |

## Left out

- Decimal.DecimalValue: reads a run of any length as an unbounded natural. The source's `parse::<usize>().unwrap()` (parser.rs:46 and 58) panics once the value exceeds `usize::MAX`. By the `10^k` bound, a run of at most 19 digits always fits a 64-bit `usize`.
- SubExpression.Parse: `Value` carries an unbounded `nat`. The source reads a run with `parse::<usize>().unwrap()` (parser.rs:46 and 58), which panics when the run exceeds the platform's `usize`. The model returns the exact value instead of that panic.
- SubExpression.Lex: same as above: digit runs are read as unbounded naturals, with no `usize` overflow.
- `Parser::parse` (parser.rs:19-26) is not modelled. It is a stub that tokenizes only the first field, discards the result, and panics on an empty list.
- `SubExpressionValidator` and the `ITokenParser` and `ITokenValidator` traits (parser.rs:66-70, 96-107) are not modelled. They are empty or unimplemented, so there is no behaviour to model. Range and domain checking of values is not part of the tokenizer.
- The `Display` impl of `Token` (token.rs:15-19) is not modelled, because it only formats text.
- `CronJob`, `CronValue` and `CronValueKind` (cron/mod.rs) are not modelled. They are passive declarations with no behaviour, and the tokenizer does not use them.
- `ArgParser::from_args` (parser_rust/src/parser.rs) and `main.rs` are not modelled. They handle command-line argument splitting, process arguments and printing, which is I/O.
