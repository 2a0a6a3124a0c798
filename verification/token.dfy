/** The tokens of one cron field, the character classifier that produces them
    one character at a time, and the table that says which token may follow
    which. */
module CronToken {
  import opened ParseErrors
  import opened Decimal

  /** One lexical unit of a cron field. The classifier only ever builds
      `Value(d)` with `d <= 9`; the tokenizer builds `Value(n)` for whole
      digit runs. */
  datatype Token = Value(n: nat) | Comma | Dash | Asterisk | Slash

  predicate IsPunctChar(c: char) {
    c == ',' || c == '-' || c == '*' || c == '/'
  }

  /** The characters a cron field may contain. */
  predicate IsTokenChar(c: char) {
    IsDigitChar(c) || IsPunctChar(c)
  }

  /** Whether `next` may follow `t`. The match lists every pair of token
      shapes, so every pair gets an answer. */
  function Check(t: Token, next: Token): (ok: bool)
    ensures t.Value? ==> (ok <==> next.Comma? || next.Dash? || next.Slash?)
    ensures t.Comma? || t.Dash? || t.Slash? ==> (ok <==> next.Value?)
    ensures t.Asterisk? ==> (ok <==> next.Slash?)
  {
    match (t, next)
    case (Value(_), Comma) => true
    case (Value(_), Dash) => true
    case (Value(_), Slash) => true
    case (Value(_), Value(_)) => false
    case (Value(_), Asterisk) => false
    case (Comma, Value(_)) => true
    case (Comma, _) => false
    case (Dash, Value(_)) => true
    case (Dash, _) => false
    case (Asterisk, Slash) => true
    case (Asterisk, _) => false
    case (Slash, Value(_)) => true
    case (Slash, _) => false
  }

  /** `Check` looks only at the shape of a `Value`, never at the number it carries. */
  lemma CheckIgnoresNumbers(t: Token, a: nat, b: nat)
    ensures Check(Value(a), t) == Check(Value(b), t)
    ensures Check(t, Value(a)) == Check(t, Value(b))
  {
  }

  /** Every consecutive pair of `ts` passes `Check`. */
  predicate Adjacent(ts: seq<Token>) {
    forall j :: 0 < j < |ts| ==> Check(ts[j - 1], ts[j])
  }

  /** The language the table admits, read off pair by pair: an `Asterisk`
      can only open a sequence and is followed only by `Slash`, and past an
      `Asterisk` numbers and operators alternate. A sequence passes the table
      exactly when it has this shape. */
  lemma AdjacentShape(ts: seq<Token>)
    ensures Adjacent(ts) <==>
      && (forall j :: 0 < j < |ts| ==> !ts[j].Asterisk?)
      && (forall j :: 0 < j < |ts| && ts[j - 1].Asterisk? ==> ts[j].Slash?)
      && (forall j :: 0 < j < |ts| && !ts[j - 1].Asterisk? ==> (ts[j].Value? <==> !ts[j - 1].Value?))
  {
    if Adjacent(ts) {
      forall j | 0 < j < |ts|
        ensures !ts[j].Asterisk?
        ensures ts[j - 1].Asterisk? ==> ts[j].Slash?
        ensures !ts[j - 1].Asterisk? ==> (ts[j].Value? <==> !ts[j - 1].Value?)
      {
        assert Check(ts[j - 1], ts[j]);
      }
    }
  }

  /** Classifies one character. Digits become one-digit values; any character
      outside the field alphabet is rejected with `InvalidToken`. */
  function TryFrom(c: char): (r: Result<Token>)
    ensures r.Ok? <==> IsTokenChar(c)
    ensures r.Err? ==> r.error == InvalidToken(c)
    ensures c == ',' ==> r == Ok(Comma)
    ensures c == '-' ==> r == Ok(Dash)
    ensures c == '*' ==> r == Ok(Asterisk)
    ensures c == '/' ==> r == Ok(Slash)
    ensures IsDigitChar(c) ==> r == Ok(Value(DigitValue(c))) && r.value.n <= 9
  {
    match c
    case ',' => Ok(Comma)
    case '-' => Ok(Dash)
    case '*' => Ok(Asterisk)
    case '/' => Ok(Slash)
    case _ =>
      if IsDigitChar(c) then Ok(Value(DigitValue(c))) else Err(InvalidToken(c))
  }

  /** The character a single-character token comes from: the inverse of `TryFrom`. */
  function CharOf(t: Token): (c: char)
    requires t.Value? ==> t.n <= 9
    ensures TryFrom(c) == Ok(t)
  {
    match t
    case Value(d) => DigitChar(d)
    case Comma => ','
    case Dash => '-'
    case Asterisk => '*'
    case Slash => '/'
  }

  /** `TryFrom` loses nothing: its token names the character it came from. */
  lemma CharOfTryFrom(c: char)
    requires IsTokenChar(c)
    ensures CharOf(TryFrom(c).value) == c
  {
    if IsDigitChar(c) {
      DigitCharOfValue(c);
    }
  }
}
