/** The success/failure carrier returned by the decoder.
    A `Result` holds an error description and a payload; it reads as a success
    exactly when the error description is empty. The source's class template is
    only ever instantiated with strings, so the payload is a string here. */
module Results {

  datatype Result = Result(error: string, payload: string) {

    /** True when the operation succeeded and `Value()` may be called. */
    predicate IsOk() {
      error == ""
    }

    /** The payload of a successful result; calling it on a failure is a caller error.
        A success is determined by its payload: its description is empty. */
    function Value(): (v: string)
      requires IsOk()
      ensures this == Result("", v)
    {
      payload
    }
  }

  /** A successful result carrying `r`. */
  function Ok(r: string): (res: Result)
    ensures res.IsOk() && res.Value() == r
  {
    Result("", r)
  }

  /** A failure carrying the description `e` and an empty payload; it reads as a
      failure exactly when `e` is non-empty. */
  function Error(e: string): (res: Result)
    ensures res.error == e && res.payload == ""
    ensures res.IsOk() <==> e == ""
  {
    Result(e, "")
  }
}
