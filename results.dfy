/** Failure values of the compiler pipeline.

    The Go program ends the process (a fatal log line or an index-out-of-range panic)
    whenever the input is malformed. Here every such exit is a `Fail` value that says which
    kind of malformation stopped the stage; no stage recovers from one. */
module Results {

  datatype Error =
    | UnknownCharacter(ch: char)   // tokenizer: a character in no recognised class
    | InputExhausted               // tokenizer: a digit run, letter run or string literal reads past the end
    | UnknownToken(text: string)   // walk: a token that cannot start an expression
    | TokensExhausted              // walk: reading past the last token

  datatype Result<T> = Ok(value: T) | Fail(error: Error) {
    predicate IsFailure() { Fail? }

    function PropagateFailure<U>(): Result<U>
      requires Fail?
    {
      Fail(error)
    }

    function Extract(): T
      requires Ok?
    {
      value
    }
  }

  datatype Option<T> = None | Some(value: T) {
    predicate IsFailure() { None? }

    function PropagateFailure<U>(): Option<U>
      requires None?
    {
      None
    }

    function Extract(): T
      requires Some?
    {
      value
    }
  }

  /** `xs` put in front of a successful list; a failure stays the same failure. */
  function Prefix<T>(xs: seq<T>, r: Result<seq<T>>): Result<seq<T>> {
    if r.Ok? then Ok(xs + r.value) else r
  }

  lemma PrefixPrefix<T>(xs: seq<T>, ys: seq<T>, r: Result<seq<T>>)
    ensures Prefix(xs, Prefix(ys, r)) == Prefix(xs + ys, r)
  {
    if r.Ok? {
      assert xs + (ys + r.value) == (xs + ys) + r.value;
    }
  }
}
