/** The side index file: one eight-byte little-endian word per entry. */
module IndexWords {

  const WORD: nat := 8
  const WORD_LIMIT: nat := 0x1_0000_0000_0000_0000

  function Word(n: nat): (s: string)
    ensures |s| == WORD
  {
    LittleEndianChars(n, WORD)
  }

  function LittleEndianChars(n: nat, k: nat): (s: string)
    ensures |s| == k
    decreases k
  {
    if k == 0 then [] else [(n % 256) as char] + LittleEndianChars(n / 256, k - 1)
  }

  function WordValue(s: string): nat {
    if s == [] then 0 else s[0] as int + 256 * WordValue(s[1..])
  }

  function Limit(k: nat): nat {
    if k == 0 then 1 else 256 * Limit(k - 1)
  }

  lemma {:induction false} ValueOfChars(n: nat, k: nat)
    requires n < Limit(k)
    ensures WordValue(LittleEndianChars(n, k)) == n
    decreases k
  {
    if k > 0 {
      ValueOfChars(n / 256, k - 1);
      assert LittleEndianChars(n, k)[1..] == LittleEndianChars(n / 256, k - 1);
    }
  }

  lemma ValueOfWord(n: nat)
    requires n < WORD_LIMIT
    ensures WordValue(Word(n)) == n
  {
    assert Limit(4) == 0x1_0000_0000;
    assert Limit(8) == 256 * 256 * 256 * 256 * Limit(4);
    ValueOfChars(n, WORD);
  }

  function Words(ns: seq<nat>): (s: string)
    ensures |s| == WORD * |ns|
    decreases |ns|
  {
    if ns == [] then [] else Words(ns[..|ns| - 1]) + Word(ns[|ns| - 1])
  }

  lemma WordsAppend(ns: seq<nat>, n: nat)
    ensures Words(ns + [n]) == Words(ns) + Word(n)
  {
    assert (ns + [n])[..|ns|] == ns;
  }

  /** The first `k` words are the index of the first `k` entries. */
  lemma {:induction false} WordsPrefix(ns: seq<nat>, k: nat)
    requires k <= |ns|
    ensures Words(ns)[..WORD * k] == Words(ns[..k])
    decreases |ns|
  {
    if k < |ns| {
      WordsPrefix(ns[..|ns| - 1], k);
      assert ns[..|ns| - 1][..k] == ns[..k];
    } else {
      assert ns[..k] == ns;
    }
  }

  lemma LastWord(all: string, before: string, word: string, n: nat)
    requires |before| == n && |word| == WORD && n + WORD <= |all| && all[..n + WORD] == before + word
    ensures all[n..n + WORD] == word
  {
    assert all[n..n + WORD] == all[..n + WORD][n..];
  }

  lemma WordAtIndex(ns: seq<nat>, k: nat)
    requires k < |ns|
    ensures WORD * k + WORD <= |Words(ns)| && Words(ns)[WORD * k..WORD * k + WORD] == Word(ns[k])
  {
    hide Words, Word;
    WordsPrefix(ns, k + 1);
    assert ns[..k + 1] == ns[..k] + [ns[k]];
    WordsAppend(ns[..k], ns[k]);
    LastWord(Words(ns), Words(ns[..k]), Word(ns[k]), WORD * k);
  }
}
