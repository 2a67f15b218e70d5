/** The phone-keypad decoder: a single left-to-right scan of key-press symbols.

    The decoder is specified twice. `ParseSpec` says declaratively which outcome
    an input has (which error, or which decoded text), and `Decode` gives the text
    through a fold of `Step` over the symbols before the terminator. `Parse` is the
    scan itself, over the mutable locals the decoder keeps, and is proved to agree
    with `ParseSpec` on every input. */
module PhonePadParser {
  import opened Results
  import opened Keypad

  datatype Option<T> = None | Some(value: T)

  /** The four ways a decode can fail, in the order the scan can meet them. */
  datatype ParseError = EmptyInput | InvalidCharacter(c: char) | MissingTerminator | TrailingInput

  /** The description the decoder reports for each failure; never empty, so the
      result it is wrapped in always reads as a failure. */
  function Message(e: ParseError): (m: string)
    ensures |m| > 0
    ensures !Error(m).IsOk()
  {
    match e
    case EmptyInput => "An empty string is not valid input"
    case InvalidCharacter(c) => "Invalid input: " + [c]
    case MissingTerminator => "End of input reached without terminating '#' token"
    case TrailingInput => "Unexpected input beyond terminating '#' token"
  }

  /** Symbols that the scan processes as presses: a digit, a wait or a delete. */
  predicate IsPressSymbol(c: char) {
    IsDigit(c) || c == ' ' || c == '*'
  }

  /** The press symbols are exactly the valid symbols other than the terminator. */
  lemma PressSymbolsAreValidInputs(c: char)
    ensures IsPressSymbol(c) <==> c in ValidInputs && c != '#'
  {
    ValidInputsAreKeypadSymbols(c);
  }

  predicate AllPressSymbols(keys: string) {
    forall k | 0 <= k < |keys| :: IsPressSymbol(keys[k])
  }

  /** The decoder's transient state: the key being pressed (if any), how many times
      it has been pressed, and the text committed so far. */
  datatype ScanState = ScanState(pressing: Option<char>, presses: nat, output: string)

  /** The state before the first symbol, and after a wait or a delete. */
  function Idle(output: string): ScanState {
    ScanState(None, 0, output)
  }

  /** A key is pending exactly when it has been pressed at least once, and a
      pending key is always a digit, so it can be looked up in the keypad table. */
  predicate Inv(s: ScanState) {
    (s.pressing.None? <==> s.presses == 0) &&
    (s.pressing.Some? ==> IsDigit(s.pressing.value))
  }

  /** The committed text, followed by the character the pending presses select. */
  function Flush(s: ScanState): (out: string)
    requires Inv(s)
    ensures |out| == |s.output| + (if s.pressing.Some? then 1 else 0)
  {
    if s.pressing.Some? then s.output + [CharForPresses(s.pressing.value, s.presses)] else s.output
  }

  /** The effect of one press symbol on the state. */
  function Step(s: ScanState, c: char): (r: ScanState)
    requires Inv(s) && IsPressSymbol(c)
    ensures Inv(r)
  {
    if c == '*' then
      Idle(if s.presses == 0 && s.output != [] then s.output[..|s.output| - 1] else s.output)
    else if c == ' ' then
      Idle(Flush(s))
    else if s.pressing.None? then
      ScanState(Some(c), s.presses + 1, s.output)
    else if c == s.pressing.value then
      s.(presses := s.presses + 1)
    else
      ScanState(Some(c), 1, Flush(s))
  }

  /** The state reached from `s` after the press symbols `keys`, left to right. */
  function Run(s: ScanState, keys: string): (r: ScanState)
    requires Inv(s) && AllPressSymbols(keys)
    ensures Inv(r)
    decreases |keys|
  {
    if keys == [] then s else Run(Step(s, keys[0]), keys[1..])
  }

  /** The text that the press symbols `keys` decode to once the terminator commits
      whatever press sequence is still pending. */
  function Decode(keys: string): string
    requires AllPressSymbols(keys)
  {
    Flush(Run(Idle([]), keys))
  }

  /** The index of the first terminator, or `|s|` when there is none. */
  function TerminatorIndex(s: string): (t: nat)
    ensures t <= |s|
    ensures forall j | 0 <= j < t :: s[j] != '#'
    ensures t < |s| ==> s[t] == '#'
  {
    if s == [] then 0
    else if s[0] == '#' then 0
    else 1 + TerminatorIndex(s[1..])
  }

  /** The index of the first symbol outside the valid set, if any. */
  function FirstInvalid(s: string): (r: Option<nat>)
    ensures r.None? ==> forall j | 0 <= j < |s| :: s[j] in ValidInputs
    ensures r.Some? ==> r.value < |s| && s[r.value] !in ValidInputs &&
                        forall j | 0 <= j < r.value :: s[j] in ValidInputs
  {
    if s == [] then None
    else if s[0] !in ValidInputs then Some(0)
    else match FirstInvalid(s[1..])
      case None => None
      case Some(j) => Some(j + 1)
  }

  /** What decoding `input` yields. Only the symbols up to the first terminator are
      validated; an invalid one among them is reported first, then a missing
      terminator, then anything after the terminator. */
  function ParseSpec(input: string): (r: Result)
    ensures r.IsOk() ==> |input| > 0 && input[|input| - 1] == '#'
    ensures !r.IsOk() ==> r.payload == ""
  {
    if input == [] then Error(Message(EmptyInput))
    else
      var t := TerminatorIndex(input);
      match FirstInvalid(input[..t])
      case Some(j) => Error(Message(InvalidCharacter(input[j])))
      case None =>
        if t == |input| then Error(Message(MissingTerminator))
        else if t + 1 < |input| then Error(Message(TrailingInput))
        else Ok(Decode(input[..t]))
  }

  /** Appending one symbol to the keys is one more step. */
  lemma {:induction false} RunSnoc(s: ScanState, keys: string, c: char)
    requires Inv(s) && AllPressSymbols(keys) && IsPressSymbol(c)
    ensures AllPressSymbols(keys + [c])
    ensures Run(s, keys + [c]) == Step(Run(s, keys), c)
    decreases |keys|
  {
    assert AllPressSymbols(keys + [c]) by {
      forall k | 0 <= k < |keys| + 1 ensures IsPressSymbol((keys + [c])[k]) {
        if k < |keys| {
          assert (keys + [c])[k] == keys[k];
        }
      }
    }
    if keys == [] {
      assert Run(Step(s, c), []) == Step(s, c);
    } else {
      assert (keys + [c])[1..] == keys[1..] + [c];
      RunSnoc(Step(s, keys[0]), keys[1..], c);
    }
  }

  /** Press symbols are never reported as invalid. */
  lemma NoInvalidPressSymbol(s: string)
    requires AllPressSymbols(s)
    ensures FirstInvalid(s) == None
  {
    forall j | 0 <= j < |s| ensures s[j] in ValidInputs {
      PressSymbolsAreValidInputs(s[j]);
    }
  }

  /** A symbol outside the valid set, preceded only by press symbols, is the first
      invalid symbol of every prefix that contains it. */
  lemma FirstInvalidAt(s: string, t: nat, i: nat)
    requires i < t <= |s| && s[i] !in ValidInputs && AllPressSymbols(s[..i])
    ensures FirstInvalid(s[..t]) == Some(i)
  {
    forall j | 0 <= j < i ensures s[..t][j] in ValidInputs {
      assert s[..t][j] == s[..i][j];
      PressSymbolsAreValidInputs(s[..i][j]);
    }
  }

  /** Decodes `input`. The locals `keyPressing`, `keyIterations` and `result` are the
      decoder's scan state; the scan stops at the first terminator, which is processed
      like any other key first, and so commits a pending press sequence. */
  method Parse(input: string) returns (r: Result)
    ensures r == ParseSpec(input)
  {
    if input == [] {
      return Error(Message(EmptyInput));
    }
    var keyPressing: Option<char> := None;
    var keyIterations: nat := 0;
    var result: string := [];
    ghost var t := TerminatorIndex(input);

    var i := 0;
    while i < |input|
      invariant 0 <= i <= t
      invariant AllPressSymbols(input[..i])
      invariant Inv(ScanState(keyPressing, keyIterations, result))
      invariant ScanState(keyPressing, keyIterations, result) == Run(Idle([]), input[..i])
    {
      var c := input[i];
      if c !in ValidInputs {
        FirstInvalidAt(input, t, i);
        return Error(Message(InvalidCharacter(c)));
      }
      ghost var before := ScanState(keyPressing, keyIterations, result);
      if c == '*' {
        keyPressing := None;
        if keyIterations == 0 && result != [] {
          result := result[..|result| - 1];
        }
        keyIterations := 0;
      } else if c == ' ' {
        if keyPressing.Some? {
          result := result + [CharForPresses(keyPressing.value, keyIterations)];
        }
        keyPressing := None;
        keyIterations := 0;
      } else if keyPressing.None? {
        keyPressing := Some(c);
        keyIterations := keyIterations + 1;
      } else if c == keyPressing.value {
        keyIterations := keyIterations + 1;
      } else {
        result := result + [CharForPresses(keyPressing.value, keyIterations)];
        keyPressing := Some(c);
        keyIterations := 1;
      }

      if c == '#' {
        assert i == t;
        assert result == Flush(before);
        break;
      }
      assert ScanState(keyPressing, keyIterations, result) == Step(before, c);
      RunSnoc(Idle([]), input[..i], c);
      assert input[..i + 1] == input[..i] + [c];
      i := i + 1;
    }

    assert i == t;
    NoInvalidPressSymbol(input[..t]);
    if i == |input| || input[i] != '#' {
      return Error(Message(MissingTerminator));
    }
    if i + 1 != |input| {
      return Error(Message(TrailingInput));
    }
    return Ok(result);
  }
}
