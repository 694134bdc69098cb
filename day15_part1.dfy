/**
 * The HASH algorithm of the initialization sequence (day15/part1.py):
 * every character's code is added, the value multiplied by 17 and
 * reduced modulo 256; the answer sums the hashes of the comma-separated
 * steps of the line.
 */
module Day15Hash {
  import opened Common

  /** One character of the HASH loop applied to the running value. */
  function Step(value: int, c: char): (v: nat)
    ensures v < 256
  {
    ((value + c as int) * 17) % 256
  }

  /** The HASH of s: the running value after every character, starting from 0. */
  function Hash(s: string): (h: nat)
    ensures h < 256
  {
    if |s| == 0 then 0 else Step(Hash(s[..|s| - 1]), s[|s| - 1])
  }

  /** The HASH loop continued from value over the characters of t, front to back. */
  function HashFrom(value: int, t: string): int
    decreases |t|
  {
    if |t| == 0 then value else HashFrom(Step(value, t[0]), t[1..])
  }

  /** The empty string hashes to 0. */
  lemma HashEmpty()
    ensures Hash("") == 0
  {
  }

  /** One more character is one more step of the loop. */
  lemma HashAppend(s: string, c: char)
    ensures Hash(s + [c]) == Step(Hash(s), c)
  {
    assert (s + [c])[..|s|] == s;
  }

  /**
   * Hashing s + t is hashing s and then carrying on over t: the loop can be
   * stopped after any prefix and resumed from the value it had.
   */
  lemma {:induction false} HashConcat(s: string, t: string)
    ensures Hash(s + t) == HashFrom(Hash(s), t)
    decreases |t|
  {
    if |t| == 0 {
      assert s + t == s;
    } else {
      var s' := s + [t[0]];
      assert s + t == s' + t[1..];
      HashConcat(s', t[1..]);
      HashAppend(s, t[0]);
      assert HashFrom(Hash(s), t) == HashFrom(Step(Hash(s), t[0]), t[1..]);
    }
  }

  /** The front-to-back fold from 0 is the HASH. */
  lemma HashIsFold(s: string)
    ensures HashFrom(0, s) == Hash(s)
  {
    HashConcat("", s);
    assert "" + s == s;
  }

  /** The inner loop of run: value updated per character. */
  method HashOf(sequence: string) returns (value: int)
    ensures value == Hash(sequence)
    ensures 0 <= value < 256
  {
    value := 0;
    var i := 0;
    while i < |sequence|
      invariant 0 <= i <= |sequence|
      invariant value == Hash(sequence[..i])
    {
      assert sequence[..i + 1] == sequence[..i] + [sequence[i]];
      HashAppend(sequence[..i], sequence[i]);
      value := value + sequence[i] as int;
      value := value * 17;
      value := value % 256;
      i := i + 1;
    }
    assert sequence[..i] == sequence;
  }

  // ---- run ---------------------------------------------------------------

  /** The hash of every piece, in order. */
  function Hashes(pieces: seq<string>): (hs: seq<int>)
    ensures |hs| == |pieces|
    ensures forall k :: 0 <= k < |pieces| ==> hs[k] == Hash(pieces[k])
  {
    if |pieces| == 0 then [] else [Hash(pieces[0])] + Hashes(pieces[1..])
  }

  /** The answer: the sum of the hashes of the comma-separated steps. */
  function Total(line: string): int
  {
    Sum(Hashes(Split(line, ',')))
  }

  /** The loop of run over the steps of the line, accumulating total. */
  method TotalOf(line: string) returns (total: int)
    ensures total == Total(line)
    ensures 0 <= total <= 255 * |Split(line, ',')|
  {
    var sequences := Split(line, ',');
    ghost var hashes := Hashes(sequences);
    total := 0;
    var n := 0;
    while n < |sequences|
      invariant 0 <= n <= |sequences|
      invariant total == Sum(hashes[..n])
    {
      var value := HashOf(sequences[n]);
      assert hashes[..n + 1][..n] == hashes[..n];
      total := total + value;
      n := n + 1;
    }
    assert hashes[..n] == hashes;
    SumBounded(hashes, 255);
  }
}
