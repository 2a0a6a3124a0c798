/** Errors of the cron field tokenizer and the result type that carries them.
    `Result` is failure-compatible, so `:-` plays the part of the source's `?`. */
module ParseErrors {

  /** The only error the tokenizer reports: a character that is not a digit
      and not one of `,` `-` `*` `/`. */
  datatype ParseError = InvalidToken(c: char)

  datatype Result<+T> = Ok(value: T) | Err(error: ParseError) {

    predicate IsFailure() {
      Err?
    }

    function PropagateFailure<U>(): (r: Result<U>)
      requires Err?
      ensures r.Err? && r.error == error
    {
      Err(error)
    }

    function Extract(): T
      requires Ok?
    {
      value
    }
  }

  /** Puts `ts` in front of a successful token list; an error passes through unchanged. */
  function Prepend<T>(ts: seq<T>, r: Result<seq<T>>): (r': Result<seq<T>>)
    ensures r'.Ok? <==> r.Ok?
    ensures r.Ok? ==> |r'.value| == |ts| + |r.value| && r'.value[..|ts|] == ts && r'.value[|ts|..] == r.value
    ensures r.Err? ==> r' == r
    ensures ts == [] ==> r' == r
  {
    match r
    case Ok(us) => Ok(ts + us)
    case Err(e) => Err(e)
  }

  lemma PrependPrepend<T>(a: seq<T>, b: seq<T>, r: Result<seq<T>>)
    ensures Prepend(a, Prepend(b, r)) == Prepend(a + b, r)
  {
    if r.Ok? {
      assert a + (b + r.value) == (a + b) + r.value;
    }
  }
}
