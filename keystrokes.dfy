/**
 * The page's three global keydown listeners, each a small state machine
 * over the `key` values of the events (lower-cased before any comparison):
 * the Konami code matcher, the rolling buffer that opens the console when
 * "whoami" is typed, and the buffer that starts the neural dump when the
 * typed keys end with "ml".
 */
module Keystrokes {
  import opened Text

  /** The keys the Konami matcher waits for, lower-cased. */
  const KONAMI_CODE: seq<string> :=
    ["arrowup", "arrowup", "arrowdown", "arrowdown", "arrowleft", "arrowright", "arrowleft", "arrowright"]

  datatype KonamiResult = KonamiResult(index: nat, fired: bool)

  /**
   * One keystroke, already lower-cased, of the matcher for `code`: a key
   * equal to the expected entry advances the index, and the last entry fires
   * and restarts; any other key restarts without being tested against the
   * first entry.
   */
  function KonamiStep<K(==)>(code: seq<K>, index: nat, key: K): (r: KonamiResult)
    requires index < |code|
    ensures r.index < |code|
    ensures r.fired ==> r.index == 0 && index == |code| - 1
    ensures key != code[index] ==> r == KonamiResult(0, false)
  {
    if key == code[index] then
      if index + 1 == |code| then KonamiResult(0, true) else KonamiResult(index + 1, false)
    else KonamiResult(0, false)
  }

  /** The matcher's index after a history of lower-cased keystrokes, from page load. */
  function KonamiAfter<K(==)>(code: seq<K>, keys: seq<K>): (r: nat)
    requires |code| > 0
    ensures r < |code|
  {
    if |keys| == 0 then 0 else KonamiStep(code, KonamiAfter(code, keys[..|keys| - 1]), keys[|keys| - 1]).index
  }

  /** The last keystroke of the history fires the matcher. */
  predicate KonamiFiresAt<K(==)>(code: seq<K>, keys: seq<K>)
    requires |code| > 0
  {
    |keys| > 0 && KonamiStep(code, KonamiAfter(code, keys[..|keys| - 1]), keys[|keys| - 1]).fired
  }

  /** Extending a history by one key is one step of the matcher. */
  lemma KonamiAfterAppend<K>(code: seq<K>, keys: seq<K>, key: K)
    requires |code| > 0
    ensures KonamiAfter(code, keys + [key]) == KonamiStep(code, KonamiAfter(code, keys), key).index
    ensures KonamiFiresAt(code, keys + [key]) == KonamiStep(code, KonamiAfter(code, keys), key).fired
  {
    assert (keys + [key])[..|keys|] == keys;
  }

  /** The first n keys of a history, n > 0, are the first n - 1 and one more step of the matcher. */
  lemma KonamiAfterPrefix<K>(code: seq<K>, keys: seq<K>, n: nat)
    requires |code| > 0 && 0 < n <= |keys|
    ensures KonamiAfter(code, keys[..n]) == KonamiStep(code, KonamiAfter(code, keys[..n - 1]), keys[n - 1]).index
    ensures KonamiFiresAt(code, keys[..n]) == KonamiStep(code, KonamiAfter(code, keys[..n - 1]), keys[n - 1]).fired
  {
    assert keys[..n][..n - 1] == keys[..n - 1];
  }

  /**
   * The index counts the code entries at the end of the history: the last
   * `index` keys are the first `index` entries of the code.
   */
  lemma {:induction false} KonamiIndexIsMatchedSuffix<K>(code: seq<K>, keys: seq<K>)
    requires |code| > 0
    ensures KonamiAfter(code, keys) <= |keys|
    ensures keys[|keys| - KonamiAfter(code, keys)..] == code[..KonamiAfter(code, keys)]
    decreases |keys|
  {
    if |keys| != 0 {
      var n := |keys| - 1;
      var init := keys[..n];
      KonamiIndexIsMatchedSuffix(code, init);
      var m := KonamiAfter(code, init);
      var r := KonamiStep(code, m, keys[n]);
      assert KonamiAfter(code, keys) == r.index;
      if r.index != 0 {
        assert keys[n - m..] == init[n - m..] + [keys[n]];
        assert code[..m + 1] == code[..m] + [code[m]];
      }
    }
  }

  /** The key that fires the matcher is the code's last entry, typed when the index is at it. */
  lemma KonamiFiringKey<K>(code: seq<K>, keys: seq<K>)
    requires |code| > 0 && KonamiFiresAt(code, keys)
    ensures KonamiAfter(code, keys[..|keys| - 1]) == |code| - 1 && keys[|keys| - 1] == code[|code| - 1]
  {
    var r := KonamiStep(code, KonamiAfter(code, keys[..|keys| - 1]), keys[|keys| - 1]);
    assert r.fired;
  }

  /** A matched run of the code's first m entries, followed by entry m, is a run of its first m + 1. */
  lemma MatchedSuffixGrows<K>(init: seq<K>, last: K, code: seq<K>, m: nat)
    requires m < |code| && m <= |init| && init[|init| - m..] == code[..m] && last == code[m]
    ensures (init + [last])[|init| - m..] == code[..m + 1]
  {
    assert (init + [last])[|init| - m..] == init[|init| - m..] + [last];
    assert code[..m + 1] == code[..m] + [code[m]];
  }

  /** Whenever the matcher fires, the last |code| keys are the code. */
  lemma KonamiFiredMeansCode<K>(code: seq<K>, keys: seq<K>)
    requires |code| > 0 && KonamiFiresAt(code, keys)
    ensures |keys| >= |code| && keys[|keys| - |code|..] == code
  {
    var n := |keys| - 1;
    var init := keys[..n];
    var m := |code| - 1;
    KonamiFiringKey(code, keys);
    KonamiIndexIsMatchedSuffix(code, init);
    MatchedSuffixGrows(init, keys[n], code, m);
    assert init + [keys[n]] == keys;
    assert code[..m + 1] == code;
  }

  /**
   * When the keys from position p on are the code and the matcher is
   * restarted before p, the index after the first n keys, n within that
   * run, is n - p.
   */
  lemma {:induction false} KonamiCodeAdvances<K>(code: seq<K>, keys: seq<K>, p: nat, n: nat)
    requires |code| > 0 && p + |code| <= |keys| && KonamiAfter(code, keys[..p]) == 0
    requires keys[p..p + |code|] == code
    requires p <= n < p + |code|
    ensures KonamiAfter(code, keys[..n]) == n - p
    decreases n - p
  {
    if n > p {
      KonamiCodeAdvances(code, keys, p, n - 1);
      KonamiAfterPrefix(code, keys, n);
      assert keys[n - 1] == code[n - 1 - p] by {
        assert keys[n - 1] == keys[p..p + |code|][n - 1 - p];
      }
    }
  }

  /** No key of such a run of the code but the last fires the matcher. */
  lemma KonamiCodeQuiet<K>(code: seq<K>, keys: seq<K>, p: nat, n: nat)
    requires |code| > 0 && p + |code| <= |keys| && KonamiAfter(code, keys[..p]) == 0
    requires keys[p..p + |code|] == code
    requires p < n < p + |code|
    ensures !KonamiFiresAt(code, keys[..n])
  {
    var index := n - 1 - p;
    KonamiCodeAdvances(code, keys, p, n - 1);
    assert KonamiAfter(code, keys[..n - 1]) == index < |code| - 1;
    KonamiAfterPrefix(code, keys, n);
  }

  /** The code's last entry, typed when the index is at it, fires the matcher. */
  lemma KonamiStepFires<K>(code: seq<K>, key: K)
    requires |code| > 0 && key == code[|code| - 1]
    ensures KonamiStep(code, |code| - 1, key).fired
  {
  }

  /** The last key of such a run fires the matcher. */
  lemma KonamiCodeLast<K>(code: seq<K>, keys: seq<K>, p: nat)
    requires |code| > 0 && p + |code| <= |keys| && KonamiAfter(code, keys[..p]) == 0
    requires keys[p..p + |code|] == code
    ensures KonamiFiresAt(code, keys[..p + |code|])
  {
    var n := p + |code|;
    var m := |code| - 1;
    var last := keys[n - 1];
    KonamiCodeAdvances(code, keys, p, n - 1);
    assert KonamiAfter(code, keys[..n - 1]) == m;
    assert last == code[m] by {
      assert last == keys[p..p + |code|][m];
    }
    KonamiStepFires(code, last);
    KonamiAfterPrefix(code, keys, n);
  }

  /** The slices of `prefix + typed` at the border of its two parts. */
  lemma AppendSlices<K>(prefix: seq<K>, typed: seq<K>)
    ensures (prefix + typed)[..|prefix|] == prefix
    ensures (prefix + typed)[|prefix|..|prefix| + |typed|] == typed
    ensures (prefix + typed)[..|prefix| + |typed|] == prefix + typed
  {
  }

  /** A run of the code that ends the history, after a restart, fires on its last key and on no key before it. */
  lemma KonamiRunFires<K>(code: seq<K>, keys: seq<K>, p: nat)
    requires |code| > 0 && p + |code| == |keys| && KonamiAfter(code, keys[..p]) == 0
    requires keys[p..p + |code|] == code
    ensures KonamiFiresAt(code, keys)
    ensures forall n :: p < n < |keys| ==> !KonamiFiresAt(code, keys[..n])
  {
    KonamiCodeLast(code, keys, p);
    assert keys[..p + |code|] == keys;
    forall n | p < n < |keys| ensures !KonamiFiresAt(code, keys[..n]) {
      KonamiCodeQuiet(code, keys, p, n);
    }
  }

  /**
   * Typing the code after a restart fires on its last key and on no key
   * before it.
   */
  lemma KonamiCodeFires<K>(code: seq<K>, prefix: seq<K>)
    requires |code| > 0 && KonamiAfter(code, prefix) == 0
    ensures KonamiFiresAt(code, prefix + code)
    ensures forall n :: |prefix| < n < |prefix| + |code| ==> !KonamiFiresAt(code, (prefix + code)[..n])
  {
    AppendSlices(prefix, code);
    KonamiRunFires(code, prefix + code, |prefix|);
  }

  /**
   * The matcher is not a substring search. From a restarted matcher, the
   * shipped code preceded by two more "up" keys never fires, although its
   * last eight keys are the code: the third "up" is a mismatch that restarts
   * the matcher without counting as a first entry.
   */
  lemma KonamiMissesOverlappingStart()
    ensures var c := KONAMI_CODE;
            var up := "arrowup";
            var down := "arrowdown";
            var left := "arrowleft";
            var right := "arrowright";
            var s1 := KonamiStep(c, 0, up);
            var s2 := KonamiStep(c, s1.index, up);
            var s3 := KonamiStep(c, s2.index, up);
            var s4 := KonamiStep(c, s3.index, up);
            var s5 := KonamiStep(c, s4.index, down);
            var s6 := KonamiStep(c, s5.index, down);
            var s7 := KonamiStep(c, s6.index, left);
            var s8 := KonamiStep(c, s7.index, right);
            var s9 := KonamiStep(c, s8.index, left);
            var s10 := KonamiStep(c, s9.index, right);
            [up, up, down, down, left, right, left, right] == c
            && !s1.fired && !s2.fired && !s3.fired && !s4.fired && !s5.fired
            && !s6.fired && !s7.fired && !s8.fired && !s9.fired && !s10.fired
  {
  }

  /** The Konami listener: the index into the code, and (for the proofs) the keys seen so far. */
  class KonamiListener {
    var index: nat
    /** The keys seen so far, each lower-cased. */
    ghost var history: seq<string>

    ghost predicate Valid()
      reads this
    {
      index == KonamiAfter(KONAMI_CODE, history)
    }

    constructor ()
      ensures Valid() && history == [] && index == 0
    {
      index := 0;
      history := [];
    }

    /** The keydown handler; `godMode` says whether it triggers the god-mode effect. */
    method KeyDown(key: string) returns (godMode: bool)
      requires Valid()
      modifies this
      ensures Valid() && history == old(history) + [Lower(key)]
      ensures index == KonamiStep(KONAMI_CODE, old(index), Lower(key)).index
      ensures godMode == KonamiFiresAt(KONAMI_CODE, history)
    {
      if Lower(key) == KONAMI_CODE[index] {
        index := index + 1;
        if index == |KONAMI_CODE| {
          godMode := true;
          index := 0;
        } else {
          godMode := false;
        }
      } else {
        godMode := false;
        index := 0;
      }
      KonamiAfterAppend(KONAMI_CODE, history, Lower(key));
      history := history + [Lower(key)];
    }
  }

  /** The word that opens the console, and how many characters of typing the buffer keeps. */
  const SECRET_WORD: string := "whoami"
  const SECRET_CAPACITY: nat := 20

  /** A typing buffer after one keystroke, and whether that keystroke set off its effect. */
  datatype BufferResult = BufferResult(buffer: string, fired: bool)

  /**
   * One keystroke of the console buffer: the lower-cased key is appended,
   * the buffer is cut to its last SECRET_CAPACITY characters, and a buffer
   * that then contains SECRET_WORD opens the console and is emptied.
   */
  function SecretStep(buffer: string, key: string): (r: BufferResult)
    ensures |r.buffer| <= SECRET_CAPACITY && !Contains(r.buffer, SECRET_WORD)
    ensures r.fired <==> Contains(LastN(buffer + Lower(key), SECRET_CAPACITY), SECRET_WORD)
  {
    var typed := LastN(buffer + Lower(key), SECRET_CAPACITY);
    if Contains(typed, SECRET_WORD) then BufferResult([], true) else BufferResult(typed, false)
  }

  /**
   * From a buffer without the word, a one-character key opens the console
   * exactly when the typing, before the cut, ends with the word.
   */
  lemma SecretOpensOnlyAtEnd(buffer: string, key: string)
    requires !Contains(buffer, SECRET_WORD) && |Lower(key)| == 1
    ensures SecretStep(buffer, key).fired <==> EndsWith(buffer + Lower(key), SECRET_WORD)
  {
    var typed := buffer + Lower(key);
    assert typed == buffer + [Lower(key)[0]];
    if Contains(LastN(typed, SECRET_CAPACITY), SECRET_WORD) {
      ContainsInSuffix(typed, LastN(typed, SECRET_CAPACITY), SECRET_WORD);
      NewOccurrenceAtEnd(buffer, Lower(key)[0], SECRET_WORD);
    }
    if EndsWith(typed, SECRET_WORD) {
      LastNKeepsShortSuffix(typed, SECRET_CAPACITY, SECRET_WORD);
      EndsWithContains(LastN(typed, SECRET_CAPACITY), SECRET_WORD);
    }
  }

  /** The console buffer after a sequence of keystrokes; `fired` is about the last one. */
  function SecretAfter(buffer: string, keys: seq<string>): (r: BufferResult)
    ensures |keys| > 0 ==> |r.buffer| <= SECRET_CAPACITY && !Contains(r.buffer, SECRET_WORD)
  {
    if |keys| == 0 then BufferResult(buffer, false)
    else SecretStep(SecretAfter(buffer, keys[..|keys| - 1]).buffer, keys[|keys| - 1])
  }

  /** The keys pressed to type the word, one letter each. */
  const WHOAMI_KEYS: seq<string> := ["w", "h", "o", "a", "m", "i"]

  /** Each of those keys is its own lower case and is one letter of the word; only the last is an "i". */
  lemma WhoamiKeys()
    ensures |WHOAMI_KEYS| == |SECRET_WORD| == 6
    ensures forall k :: 0 <= k < 6 ==> Lower(WHOAMI_KEYS[k]) == [SECRET_WORD[k]]
    ensures forall k :: 0 <= k < 5 ==> SECRET_WORD[k] != SECRET_WORD[5]
  {
    LowerOfLowerCase("w");
    LowerOfLowerCase("h");
    LowerOfLowerCase("o");
    LowerOfLowerCase("a");
    LowerOfLowerCase("m");
    LowerOfLowerCase("i");
  }

  /** One more letter of the word, typed into a buffer that ends with the letters before it. */
  lemma SecretTypingStep(buffer: string, k: nat)
    requires k < 6 && !Contains(buffer, SECRET_WORD) && EndsWith(buffer, SECRET_WORD[..k])
    ensures SecretStep(buffer, WHOAMI_KEYS[k]).fired <==> k == 5
    ensures k < 5 ==> EndsWith(SecretStep(buffer, WHOAMI_KEYS[k]).buffer, SECRET_WORD[..k + 1])
  {
    WhoamiKeys();
    var c := SECRET_WORD[k];
    var typed := buffer + [c];
    EndsWithAppend(buffer, SECRET_WORD[..k], c);
    assert SECRET_WORD[..k] + [c] == SECRET_WORD[..k + 1];
    SecretOpensOnlyAtEnd(buffer, WHOAMI_KEYS[k]);
    if EndsWith(typed, SECRET_WORD) {
      assert typed[|typed| - 1] == SECRET_WORD[5];
    }
    if k < 5 {
      LastNKeepsShortSuffix(typed, SECRET_CAPACITY, SECRET_WORD[..k + 1]);
    } else {
      assert SECRET_WORD[..k + 1] == SECRET_WORD;
    }
  }

  /** Typing the first n letters of the word into a buffer without it opens nothing and leaves them at the end. */
  lemma {:induction false} SecretTypingPrefix(buffer: string, n: nat)
    requires n < 6 && !Contains(buffer, SECRET_WORD)
    ensures !Contains(SecretAfter(buffer, WHOAMI_KEYS[..n]).buffer, SECRET_WORD)
    ensures EndsWith(SecretAfter(buffer, WHOAMI_KEYS[..n]).buffer, SECRET_WORD[..n])
    ensures n > 0 ==> !SecretAfter(buffer, WHOAMI_KEYS[..n]).fired
    decreases n
  {
    if n != 0 {
      var k := n - 1;
      SecretTypingPrefix(buffer, k);
      assert WHOAMI_KEYS[..n][..k] == WHOAMI_KEYS[..k];
      SecretTypingStep(SecretAfter(buffer, WHOAMI_KEYS[..k]).buffer, k);
    }
  }

  /**
   * Typing w, h, o, a, m, i with no buffer holding the word opens the
   * console on the "i" and not before, whatever was typed earlier.
   */
  lemma TypingWhoamiOpensConsole(buffer: string)
    requires !Contains(buffer, SECRET_WORD)
    ensures SecretAfter(buffer, WHOAMI_KEYS).fired
    ensures forall n :: 0 < n < 6 ==> !SecretAfter(buffer, WHOAMI_KEYS[..n]).fired
  {
    forall n | 0 < n < 6 ensures !SecretAfter(buffer, WHOAMI_KEYS[..n]).fired {
      SecretTypingPrefix(buffer, n);
    }
    SecretTypingPrefix(buffer, 5);
    assert WHOAMI_KEYS[..5] == WHOAMI_KEYS[..|WHOAMI_KEYS| - 1];
    SecretTypingStep(SecretAfter(buffer, WHOAMI_KEYS[..5]).buffer, 5);
  }

  /** The console listener: `buffer` is the page's `secretInput`. */
  class SecretListener {
    var buffer: string

    /** The buffer is short and never holds the word between keystrokes. */
    ghost predicate Valid()
      reads this
    {
      |buffer| <= SECRET_CAPACITY && !Contains(buffer, SECRET_WORD)
    }

    constructor ()
      ensures Valid() && buffer == []
    {
      buffer := [];
    }

    /** The keydown handler; `console` says whether it opens the console. */
    method KeyDown(key: string) returns (console: bool)
      requires Valid()
      modifies this
      ensures Valid()
      ensures BufferResult(buffer, console) == SecretStep(old(buffer), key)
    {
      buffer := buffer + Lower(key);
      if |buffer| > SECRET_CAPACITY {
        buffer := buffer[|buffer| - SECRET_CAPACITY..];
      }
      if Contains(buffer, SECRET_WORD) {
        console := true;
        buffer := [];
      } else {
        console := false;
      }
    }
  }

  /** The ending of the typed keys that starts the neural dump. */
  const DUMP_WORD: string := "ml"

  /**
   * One keystroke of the dump buffer: the lower-cased key is appended, and
   * typing that then ends with DUMP_WORD starts the dump and empties the
   * buffer; otherwise everything typed is kept.
   */
  function DumpStep(keys: string, key: string): (r: BufferResult)
    ensures !EndsWith(r.buffer, DUMP_WORD)
    ensures r.fired <==> EndsWith(keys + Lower(key), DUMP_WORD)
    ensures !r.fired ==> keys <= r.buffer
  {
    var typed := keys + Lower(key);
    if EndsWith(typed, DUMP_WORD) then BufferResult([], true) else BufferResult(typed, false)
  }

  /**
   * Pressing "m" and then "l" (in either case) starts the dump on the
   * second key, from any buffer the listener can hold.
   */
  lemma TypingMlStartsDump(keys: string, m: string, l: string)
    requires !EndsWith(keys, DUMP_WORD) && Lower(m) == "m" && Lower(l) == "l"
    ensures !DumpStep(keys, m).fired
    ensures DumpStep(DumpStep(keys, m).buffer, l).fired
  {
    var first := keys + Lower(m);
    assert first[|first| - 1] == 'm' && DUMP_WORD[1] == 'l';
    var second := first + Lower(l);
    assert second[|second| - 2..] == DUMP_WORD;
  }

  /** The dump listener: `keys` is the page's global of that name. */
  class DumpListener {
    var keys: string

    /** The buffer never ends with the word between keystrokes. */
    ghost predicate Valid()
      reads this
    {
      !EndsWith(keys, DUMP_WORD)
    }

    constructor ()
      ensures Valid() && keys == []
    {
      keys := [];
    }

    /** The keydown handler; `dump` says whether it starts the neural dump. */
    method KeyDown(key: string) returns (dump: bool)
      requires Valid()
      modifies this
      ensures Valid()
      ensures BufferResult(keys, dump) == DumpStep(old(keys), key)
    {
      keys := keys + Lower(key);
      if EndsWith(keys, DUMP_WORD) {
        dump := true;
        keys := [];
      } else {
        dump := false;
      }
    }
  }
}
