/** Properties of the decoder: which inputs fail and with which error, what each
    kind of symbol does to the scan, and the behaviour the decoder's tests expect. */
module ParserProperties {
  import opened Results
  import opened Keypad
  import opened PhonePadParser

  /** `n` copies of the symbol `c`. */
  function Repeat(c: char, n: nat): (r: string)
    ensures |r| == n && forall k | 0 <= k < n :: r[k] == c
  {
    if n == 0 then [] else [c] + Repeat(c, n - 1)
  }

  lemma AllPressSymbolsAppend(a: string, b: string)
    requires AllPressSymbols(a) && AllPressSymbols(b)
    ensures AllPressSymbols(a + b)
  {
    forall k | 0 <= k < |a + b| ensures IsPressSymbol((a + b)[k]) {
      if k < |a| {
        assert (a + b)[k] == a[k];
      } else {
        assert (a + b)[k] == b[k - |a|];
      }
    }
  }

  lemma ConsAppend(c: char, a: string, b: string)
    ensures ([c] + a) + b == [c] + (a + b)
  {
  }

  /** Running over `[c] + rest` is one step followed by the rest. */
  lemma RunSymbol(s: ScanState, c: char, rest: string)
    requires Inv(s) && IsPressSymbol(c) && AllPressSymbols(rest)
    ensures AllPressSymbols([c] + rest)
    ensures Run(s, [c] + rest) == Run(Step(s, c), rest)
  {
    AllPressSymbolsAppend([c], rest);
    assert ([c] + rest)[1..] == rest;
  }

  // ----- Outcomes of a decode -----

  /** The empty input fails with the "empty" error before any symbol is examined. */
  lemma ParseEmptyFails()
    ensures ParseSpec([]) == Error(Message(EmptyInput))
    ensures !ParseSpec([]).IsOk()
  {
  }

  /** The first symbol outside the valid set, when no terminator precedes it, is the
      one reported. */
  lemma ParseInvalidCharacter(input: string, j: nat)
    requires j < |input| && input[j] !in ValidInputs && AllPressSymbols(input[..j])
    ensures ParseSpec(input) == Error(Message(InvalidCharacter(input[j])))
  {
    var t := TerminatorIndex(input);
    assert forall k | 0 <= k < j :: input[..j][k] == input[k];
    assert j < t;
    var pre := input[..t];
    assert pre[j] == input[j];
    assert forall k | 0 <= k < j :: pre[k] == input[k];
    assert FirstInvalid(pre) == Some(j);
  }

  /** Valid, non-empty input without a terminator fails with the missing-terminator error. */
  lemma ParseMissingTerminator(input: string)
    requires input != [] && AllPressSymbols(input)
    ensures ParseSpec(input) == Error(Message(MissingTerminator))
  {
    var t := TerminatorIndex(input);
    assert t == |input|;
    assert input[..t] == input;
  }

  /** Once the symbols before the first terminator are valid, anything at all after
      it fails with the trailing-input error: those symbols are never validated. */
  lemma ParseTrailingInput(input: string, t: nat)
    requires t + 1 < |input| && input[t] == '#' && AllPressSymbols(input[..t])
    ensures ParseSpec(input) == Error(Message(TrailingInput))
  {
    assert forall k | 0 <= k < t :: input[..t][k] == input[k];
    assert TerminatorIndex(input) == t;
    assert FirstInvalid(input[..t]) == None;
  }

  /** A decode succeeds exactly when the input is press symbols followed by a single
      terminator that ends it, and then it yields the decoding of those symbols. */
  lemma ParseSucceedsIff(input: string)
    ensures ParseSpec(input).IsOk() <==>
            |input| > 0 && input[|input| - 1] == '#' && AllPressSymbols(input[..|input| - 1])
    ensures ParseSpec(input).IsOk() ==>
            AllPressSymbols(input[..|input| - 1]) &&
            ParseSpec(input).Value() == Decode(input[..|input| - 1])
  {
    if input == [] {
      return;
    }
    var t := TerminatorIndex(input);
    var n := |input| - 1;
    assert forall k | 0 <= k < n :: input[..n][k] == input[k];
    if input[n] == '#' && AllPressSymbols(input[..n]) {
      assert t == n;
      assert FirstInvalid(input[..t]) == None;
    }
    if ParseSpec(input).IsOk() {
      assert FirstInvalid(input[..t]).None? && t == n;
      assert forall k | 0 <= k < n :: input[..n][k] == input[..t][k];
    }
  }

  /** Press symbols followed by one terminator decode to `Decode` of the symbols. */
  lemma ParseWellTerminated(keys: string)
    requires AllPressSymbols(keys)
    ensures ParseSpec(keys + ['#']) == Ok(Decode(keys))
  {
    var input := keys + ['#'];
    assert input[..|input| - 1] == keys;
    ParseSucceedsIff(input);
  }

  /** Distinct failures are reported with distinct descriptions. */
  lemma MessagesDistinct(a: ParseError, b: ParseError)
    requires a != b
    ensures Message(a) != Message(b)
  {
    if a.InvalidCharacter? && b.InvalidCharacter? {
      assert Message(a)[15] == a.c;
      assert Message(b)[15] == b.c;
    } else {
      assert |Message(a)| != |Message(b)|;
    }
  }

  // ----- What each symbol does to the scan -----

  /** Running over two pieces is running over the first, then over the second. */
  lemma {:induction false} RunAppend(s: ScanState, a: string, b: string)
    requires Inv(s) && AllPressSymbols(a) && AllPressSymbols(b)
    ensures AllPressSymbols(a + b)
    ensures Run(s, a + b) == Run(Run(s, a), b)
    decreases |a|
  {
    AllPressSymbolsAppend(a, b);
    if a == [] {
      assert a + b == b;
    } else {
      assert (a + b)[0] == a[0];
      assert (a + b)[1..] == a[1..] + b;
      RunAppend(Step(s, a[0]), a[1..], b);
    }
  }

  /** Further presses of the pending key only count up; nothing is committed. */
  lemma {:induction false} PressesAccumulate(d: char, m: nat, group: string, out: string)
    requires IsDigit(d) && m >= 1
    requires forall k | 0 <= k < |group| :: group[k] == d
    ensures AllPressSymbols(group)
    ensures Run(ScanState(Some(d), m, out), group) == ScanState(Some(d), m + |group|, out)
    decreases |group|
  {
    ValidInputsAreKeypadSymbols(d);
    if group != [] {
      PressesAccumulate(d, m + 1, group[1..], out);
    }
  }

  /** A run of presses of a key other than the pending one first commits what is
      pending (as `Flush`), then leaves that key pending with the run's length. */
  lemma RunGroup(s: ScanState, d: char, group: string, rest: string)
    requires Inv(s) && IsDigit(d) && s.pressing != Some(d) && group != []
    requires forall k | 0 <= k < |group| :: group[k] == d
    requires AllPressSymbols(rest)
    ensures AllPressSymbols(group + rest)
    ensures Run(s, group + rest) == Run(ScanState(Some(d), |group|, Flush(s)), rest)
  {
    RunWholeGroup(s, d, group);
    RunAppend(s, group, rest);
  }

  lemma RunWholeGroup(s: ScanState, d: char, group: string)
    requires Inv(s) && IsDigit(d) && s.pressing != Some(d) && group != []
    requires forall k | 0 <= k < |group| :: group[k] == d
    ensures AllPressSymbols(group)
    ensures Run(s, group) == ScanState(Some(d), |group|, Flush(s))
  {
    var tail := group[1..];
    PressesAccumulate(d, 1, tail, Flush(s));
    ValidInputsAreKeypadSymbols(d);
    assert Step(s, d) == ScanState(Some(d), 1, Flush(s));
    assert group == [d] + tail;
    RunSymbol(s, d, tail);
  }

  /** `n` presses of a key from an idle state leave that key pending `n` times. */
  lemma PressesFromIdle(out: string, d: char, n: nat)
    requires IsDigit(d) && n >= 1
    ensures AllPressSymbols(Repeat(d, n))
    ensures Run(Idle(out), Repeat(d, n)) == ScanState(Some(d), n, out)
  {
    RunGroup(Idle(out), d, Repeat(d, n), []);
    assert Repeat(d, n) + [] == Repeat(d, n);
  }

  /** `n` presses of one key decode to the character `CharForPresses` selects. */
  lemma DecodePresses(d: char, n: nat)
    requires IsDigit(d) && n >= 1
    ensures AllPressSymbols(Repeat(d, n))
    ensures Decode(Repeat(d, n)) == [CharForPresses(d, n)]
  {
    PressesFromIdle([], d, n);
  }

  /** Pressing a key one more full round of its characters selects the same character. */
  lemma PressesWrapAround(d: char, n: nat)
    requires IsDigit(d) && n >= 1
    ensures AllPressSymbols(Repeat(d, n)) && AllPressSymbols(Repeat(d, n + |KeyLetters(d)|))
    ensures Decode(Repeat(d, n + |KeyLetters(d)|)) == Decode(Repeat(d, n))
  {
    DecodePresses(d, n);
    var len := |KeyLetters(d)|;
    DecodePresses(d, n + len);
    CharForPressesWraps(d, n, 1);
    assert n + 1 * len == n + len;
  }

  /** A press sequence decodes to a character of its own key only, so the decoded
      character tells which key was pressed. */
  lemma DecodedCharacterNamesKey(a: char, m: nat, b: char, n: nat)
    requires IsDigit(a) && IsDigit(b) && m >= 1 && n >= 1
    requires AllPressSymbols(Repeat(a, m)) && AllPressSymbols(Repeat(b, n))
    requires Decode(Repeat(a, m)) == Decode(Repeat(b, n))
    ensures a == b
  {
    DecodePresses(a, m);
    DecodePresses(b, n);
    assert CharForPresses(a, m) == Decode(Repeat(a, m))[0];
    KeyOfLetter(CharForPresses(a, m), a, b);
  }

  /** The terminator commits a pending press sequence exactly as a wait would. */
  lemma TerminatorCommitsLikeWait(keys: string)
    requires AllPressSymbols(keys)
    ensures AllPressSymbols(keys + [' '])
    ensures Decode(keys) == Run(Idle([]), keys + [' ']).output
  {
    RunSnoc(Idle([]), keys, ' ');
  }

  /** A delete cancels the pending press sequence if there is one, and otherwise
      removes the last committed character, if any; either way nothing is pending after. */
  lemma DeleteStep(s: ScanState)
    requires Inv(s)
    ensures s.pressing.Some? ==> Step(s, '*') == Idle(s.output)
    ensures s.pressing.None? && s.output != [] ==> Step(s, '*') == Idle(s.output[..|s.output| - 1])
    ensures s.pressing.None? && s.output == [] ==> Step(s, '*') == s
  {
  }

  /** A press sequence followed by a delete leaves the committed text as it was. */
  lemma PressesThenDeleteCancel(out: string, d: char, n: nat)
    requires IsDigit(d) && n >= 1
    ensures AllPressSymbols(Repeat(d, n) + ['*'])
    ensures Run(Idle(out), Repeat(d, n) + ['*']) == Idle(out)
  {
    PressesFromIdle(out, d, n);
    RunSnoc(Idle(out), Repeat(d, n), '*');
  }

  /** Deletes at the start of input, with nothing to delete, change nothing. */
  lemma {:induction false} LeadingDeletesAreNoOps(k: nat, rest: string)
    requires AllPressSymbols(rest)
    ensures AllPressSymbols(Repeat('*', k) + rest)
    ensures Run(Idle([]), Repeat('*', k) + rest) == Run(Idle([]), rest)
  {
    if k == 0 {
      assert Repeat('*', k) + rest == rest;
    } else {
      LeadingDeletesAreNoOps(k - 1, rest);
      assert Repeat('*', k) + rest == ['*'] + (Repeat('*', k - 1) + rest);
      RunSymbol(Idle([]), '*', Repeat('*', k - 1) + rest);
    }
  }

  /** A wait commits the pending press sequence, if any, and clears the pending state. */
  lemma WaitCommits(s: ScanState)
    requires Inv(s)
    ensures Step(s, ' ') == Idle(Flush(s))
    ensures s.pressing.Some? ==> Step(s, ' ').output == s.output + [CharForPresses(s.pressing.value, s.presses)]
    ensures s.pressing.None? ==> Step(s, ' ') == s
  {
  }

  /** Committing the pending press sequence keeps the text committed before it. */
  lemma FlushKeepsOutput(s: ScanState)
    requires Inv(s)
    ensures Flush(s)[..|s.output|] == s.output
    ensures s.pressing.Some? ==> Flush(s) == s.output + [CharForPresses(s.pressing.value, s.presses)]
    ensures s.pressing.Some? ==> Flush(s)[|s.output|] in KeyLetters(s.pressing.value)
  {
  }

  /** Waits with nothing pending change nothing. */
  lemma {:induction false} LeadingWaitsAreNoOps(out: string, k: nat, rest: string)
    requires AllPressSymbols(rest)
    ensures AllPressSymbols(Repeat(' ', k) + rest)
    ensures Run(Idle(out), Repeat(' ', k) + rest) == Run(Idle(out), rest)
  {
    if k == 0 {
      assert Repeat(' ', k) + rest == rest;
    } else {
      LeadingWaitsAreNoOps(out, k - 1, rest);
      assert Repeat(' ', k) + rest == [' '] + (Repeat(' ', k - 1) + rest);
      RunSymbol(Idle(out), ' ', Repeat(' ', k - 1) + rest);
    }
  }

  /** Several consecutive waits behave as a single wait. */
  lemma RepeatedWaitsActAsOne(s: ScanState, k: nat, rest: string)
    requires Inv(s) && k >= 1 && AllPressSymbols(rest)
    ensures AllPressSymbols(Repeat(' ', k) + rest)
    ensures Run(s, Repeat(' ', k) + rest) == Run(s, [' '] + rest)
  {
    var more := Repeat(' ', k - 1) + rest;
    LeadingWaitsAreNoOps(Flush(s), k - 1, rest);
    assert Repeat(' ', k) == [' '] + Repeat(' ', k - 1);
    ConsAppend(' ', Repeat(' ', k - 1), rest);
    WaitCommits(s);
    RunSymbol(s, ' ', more);
    RunSymbol(s, ' ', rest);
  }

  /** Each symbol adds at most one character to the committed-plus-pending text. */
  lemma {:induction false} RunGrowsByAtMostOne(s: ScanState, keys: string)
    requires Inv(s) && AllPressSymbols(keys)
    ensures |Flush(Run(s, keys))| <= |Flush(s)| + |keys|
    decreases |keys|
  {
    if keys != [] {
      RunGrowsByAtMostOne(Step(s, keys[0]), keys[1..]);
    }
  }

  /** The decoded text is never longer than the symbols it was decoded from. */
  lemma DecodeLength(keys: string)
    requires AllPressSymbols(keys)
    ensures |Decode(keys)| <= |keys|
  {
    RunGrowsByAtMostOne(Idle([]), keys);
  }

  ghost predicate AllKeyLetters(text: string) {
    forall k | 0 <= k < |text| :: IsKeyLetter(text[k])
  }

  lemma {:induction false} RunKeepsKeyLetters(s: ScanState, keys: string)
    requires Inv(s) && AllPressSymbols(keys) && AllKeyLetters(s.output)
    ensures AllKeyLetters(Run(s, keys).output) && AllKeyLetters(Flush(Run(s, keys)))
    decreases |keys|
  {
    if keys == [] {
      FlushKeepsOutput(s);
    } else {
      var s' := Step(s, keys[0]);
      assert AllKeyLetters(s'.output) by {
        if s'.output != s.output && s'.output != Flush(s) {
          assert s'.output == s.output[..|s.output| - 1];
        }
      }
      RunKeepsKeyLetters(s', keys[1..]);
    }
  }

  /** Every decoded character is one printed on some key. */
  lemma DecodeUsesKeypadLetters(keys: string)
    requires AllPressSymbols(keys)
    ensures AllKeyLetters(Decode(keys))
  {
    RunKeepsKeyLetters(Idle([]), keys);
  }
}
