/**
 Random codes (src/shortener/ids.py, `RandomCodeGenerator`). The random source is the sequence of its picks.
 */
module RandomCodes {
  import opened Prelude
  import opened Base62

  /** Every pick is the number of a character of the alphabet. */
  ghost predicate InAlphabet(picks: nat -> nat) {
    forall i: nat :: picks(i) < 62
  }

  /** The code that the next `length` picks spell. */
  function Spelled(picks: nat -> nat, from: nat, length: nat): (code: string)
    requires InAlphabet(picks)
    ensures |code| == length
    ensures forall k | 0 <= k < length :: code[k] == Char(picks(from + k))
  {
    if length == 0 then [] else Spelled(picks, from, length - 1) + [Char(picks(from + length - 1))]
  }

  /** A random code decodes to a number below 62^length. */
  lemma {:induction false} SpelledInKeyspace(picks: nat -> nat, from: nat, length: nat)
    requires InAlphabet(picks)
    ensures Decode(Spelled(picks, from, length)).Some? && Decode(Spelled(picks, from, length)).value < Pow62(length)
  {
    if length > 0 {
      SpelledInKeyspace(picks, from, length - 1);
      FindChar(picks(from + length - 1));
      DecodeNext(Spelled(picks, from, length - 1), Char(picks(from + length - 1)));
    }
  }

  class Rng {
    const picks: nat -> nat
    var taken: nat

    constructor (picks: nat -> nat)
      ensures this.picks == picks && taken == 0
    {
      this.picks, taken := picks, 0;
    }

    method Choice() returns (c: char)
      requires picks(taken) < 62
      modifies this
      ensures c == Char(picks(old(taken))) && taken == old(taken) + 1
    {
      AlphabetAt(picks(taken));
      c := ALPHABET[picks(taken)];
      taken := taken + 1;
    }
  }

  class RandomCodeGenerator {
    const length: nat
    const rng: Rng

    constructor (length: nat, rng: Rng)
      requires length >= 1
      ensures this.length == length && this.rng == rng
    {
      this.length, this.rng := length, rng;
    }

    method NextCode() returns (code: string)
      requires InAlphabet(rng.picks)
      modifies rng
      ensures code == Spelled(rng.picks, old(rng.taken), length) && rng.taken == old(rng.taken) + length
    {
      code := [];
      for i := 0 to length
        invariant code == Spelled(rng.picks, old(rng.taken), i) && rng.taken == old(rng.taken) + i
      {
        var c := rng.Choice();
        code := code + [c];
      }
    }
  }
}
