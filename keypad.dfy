/** The fixed keypad table and the lookups the decoder makes in it. */
module Keypad {

  /** Entry `d` holds, in order, the characters printed on the key labelled `d`. */
  const KeyMap: seq<seq<char>> := [
    [' '],
    ['&', '\'', '(', ')'],
    ['A', 'B', 'C'],
    ['D', 'E', 'F'],
    ['G', 'H', 'I'],
    ['J', 'K', 'L'],
    ['M', 'N', 'O'],
    ['P', 'Q', 'R', 'S'],
    ['T', 'U', 'V'],
    ['W', 'X', 'Y', 'Z']
  ]

  /** Every symbol the decoder accepts before the terminator. */
  const ValidInputs: set<char> := {'0', '1', '2', '3', '4', '5', '6', '7', '8', '9', '#', ' ', '*'}

  predicate IsDigit(c: char) {
    '0' <= c <= '9'
  }

  /** A character that some key of the keypad can produce. */
  ghost predicate IsKeyLetter(c: char) {
    exists d | 0 <= d < |KeyMap| :: c in KeyMap[d]
  }

  /** The table has one entry per digit and no entry is empty. */
  lemma KeyMapShape()
    ensures |KeyMap| == 10
    ensures forall d | 0 <= d < |KeyMap| :: |KeyMap[d]| >= 1
  {
  }

  /** The valid symbols are exactly the ten digits, space, `*` and `#`. */
  lemma ValidInputsAreKeypadSymbols(c: char)
    ensures c in ValidInputs <==> IsDigit(c) || c == ' ' || c == '*' || c == '#'
  {
  }

  /** The characters of the key labelled `key`; only a digit may be looked up, and
      the entry found is never empty. */
  function KeyLetters(key: char): (letters: seq<char>)
    requires IsDigit(key)
    ensures |letters| >= 1
  {
    KeyMap[key as int - '0' as int]
  }

  /** No character is printed on two keys, so a decoded character names its key. */
  lemma KeyOfLetter(c: char, a: char, b: char)
    requires IsDigit(a) && IsDigit(b)
    requires c in KeyLetters(a) && c in KeyLetters(b)
    ensures a == b
  {
  }

  /** The character selected by pressing `key` `presses` times: the presses walk
      through the key's characters and wrap around after the last one. */
  function CharForPresses(key: char, presses: nat): (c: char)
    requires IsDigit(key) && presses >= 1
    ensures c in KeyLetters(key)
  {
    var letters := KeyLetters(key);
    letters[(presses - 1) % |letters|]
  }

  /** Within the first round, `n` presses select the key's `n`-th character. */
  lemma CharForPressesFirstRound(key: char, n: nat)
    requires IsDigit(key) && 1 <= n <= |KeyLetters(key)|
    ensures CharForPresses(key, n) == KeyLetters(key)[n - 1]
  {
  }

  /** Pressing a key `k` more full rounds selects the same character. */
  lemma {:induction false} CharForPressesWraps(key: char, n: nat, k: nat)
    requires IsDigit(key) && n >= 1
    ensures CharForPresses(key, n + k * |KeyLetters(key)|) == CharForPresses(key, n)
  {
    var len := |KeyLetters(key)|;
    if k > 0 {
      CharForPressesWraps(key, n, k - 1);
      var m := n + (k - 1) * len;
      assert n + k * len == m + len;
      assert (m + len - 1) % len == (m - 1) % len by {
        ModAddPeriod(m - 1, len);
      }
    }
  }

  // Arithmetic helpers for the wrap-around.

  lemma MulAtLeast(k: int, len: int)
    requires k >= 1 && len > 0
    ensures k * len >= len
  {
  }

  lemma MulSub(a: int, b: int, len: int)
    ensures a * len - b * len == (a - b) * len
  {
  }

  /** The remainder is determined by any decomposition `x == q * len + r` with `0 <= r < len`. */
  lemma ModUnique(x: int, len: int, q: int, r: int)
    requires 0 <= r < len && x == q * len + r
    ensures x % len == r
  {
    var q', r' := x / len, x % len;
    assert x == q' * len + r';
    MulSub(q, q', len);
    MulSub(q', q, len);
    if q > q' {
      MulAtLeast(q - q', len);
    } else if q < q' {
      MulAtLeast(q' - q, len);
    }
  }

  lemma ModAddPeriod(a: nat, len: nat)
    requires len > 0
    ensures (a + len) % len == a % len
  {
    ModUnique(a + len, len, a / len + 1, a % len);
  }
}
