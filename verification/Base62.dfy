/**
 Base-62 short codes (src/shortener/ids.py, `encode_base62` and `decode_base62`).
 */
module Base62 {
  import opened Prelude

  /** Written in pieces; the order is digits, upper case, lower case, which is code-point order. Its length,
      the base, is written as 62 below. */
  const ALPHABET := "0123456789" + "ABCDEFGHIJKLM" + "NOPQRSTUVWXYZ" + "abcdefghijklm" + "nopqrstuvwxyz"

  datatype CodecError = NegativeId | InvalidCharacter(c: char)

  // ---------------------------------------------------------------- alphabet

  function CodePoint(d: nat): int
    requires d < 62
  {
    if d < 10 then 48 + d else if d < 36 then 55 + d else 61 + d
  }

  /** `ALPHABET[d]`, by `AlphabetAt`. */
  function Char(d: nat): char
    requires d < 62
  {
    CodePoint(d) as char
  }

  lemma {:induction false} Segments()
    ensures |ALPHABET| == 62
    ensures forall d | 0 <= d < 10 :: ALPHABET[d] == "0123456789"[d]
    ensures forall d | 10 <= d < 23 :: ALPHABET[d] == "ABCDEFGHIJKLM"[d - 10]
    ensures forall d | 23 <= d < 36 :: ALPHABET[d] == "NOPQRSTUVWXYZ"[d - 23]
    ensures forall d | 36 <= d < 49 :: ALPHABET[d] == "abcdefghijklm"[d - 36]
    ensures forall d | 49 <= d < 62 :: ALPHABET[d] == "nopqrstuvwxyz"[d - 49]
  {
  }

  lemma {:induction false} AlphabetAt(d: nat)
    requires d < 62
    ensures |ALPHABET| == 62 && ALPHABET[d] == Char(d)
  {
    Segments();
  }

  lemma {:induction false} AlphabetIsSorted(i: nat, j: nat)
    requires i < 62 && j < 62
    ensures Char(i) < Char(j) <==> i < j
  {
  }

  /** `ALPHABET.find`, by `FindIsAlphabetIndex`; None for the result -1. */
  function Find(c: char): (r: Option<nat>)
    ensures r.Some? ==> r.value < 62 && Char(r.value) == c
  {
    if '0' <= c <= '9' then Some(c as int - 48)
    else if 'A' <= c <= 'Z' then Some(c as int - 55)
    else if 'a' <= c <= 'z' then Some(c as int - 61)
    else None
  }

  lemma {:induction false} FindIsAlphabetIndex(c: char, d: nat)
    ensures |ALPHABET| == 62
    ensures Find(c) == Some(d) <==> d < 62 && ALPHABET[d] == c
  {
    Segments();
    if d < 62 { AlphabetAt(d); }
  }

  lemma {:induction false} FindChar(d: nat)
    requires d < 62
    ensures Find(Char(d)) == Some(d)
  {
  }

  // ---------------------------------------------------------------- codec

  function Digits(n: nat): string {
    if n == 0 then "" else Digits(n / 62) + [Char(n % 62)]
  }

  function Encode(n: nat): string {
    if n == 0 then [Char(0)] else Digits(n)
  }

  function Shifted(n: Option<nat>, d: Option<nat>): Option<nat> {
    if n.Some? && d.Some? then Some(n.value * 62 + d.value) else None
  }

  function Decode(s: string): Option<nat> {
    if s == "" then Some(0) else Shifted(Decode(s[..|s| - 1]), Find(s[|s| - 1]))
  }

  lemma {:induction false} DecodeNext(u: string, c: char)
    ensures Decode(u + [c]) == Shifted(Decode(u), Find(c))
  {
    assert (u + [c])[..|u|] == u;
  }

  function Reverse(s: string): string {
    if s == "" then "" else Reverse(s[1..]) + [s[0]]
  }

  lemma {:induction false} ReverseAppend(s: string, c: char)
    ensures Reverse(s + [c]) == [c] + Reverse(s)
  {
    if s == "" {
      assert [c][1..] == "";
    } else {
      assert (s + [c])[1..] == s[1..] + [c];
      ReverseAppend(s[1..], c);
    }
  }

  method EncodeBase62(n: int) returns (r: Result<string, CodecError>)
    ensures r == if n < 0 then Err(NegativeId) else Ok(Encode(n))
  {
    if n < 0 {
      return Err(NegativeId);
    }
    if n == 0 {
      return Ok([Char(0)]);
    }
    var left: nat, out := n, "";
    while left != 0
      invariant Digits(n) == Digits(left) + Reverse(out)
    {
      ReverseAppend(out, Char(left % 62));
      assert Digits(left) + Reverse(out) == Digits(left / 62) + ([Char(left % 62)] + Reverse(out));
      out := out + [Char(left % 62)];
      left := left / 62;
    }
    assert Digits(n) == Reverse(out);
    return Ok(Reverse(out));
  }

  method DecodeBase62(s: string) returns (r: Result<nat, CodecError>)
    ensures r.Ok? <==> Decode(s).Some?
    ensures r.Ok? ==> Some(r.value) == Decode(s)
    ensures r.Err? ==> exists i ::
              0 <= i < |s| && r.error == InvalidCharacter(s[i]) && Find(s[i]).None? && Decode(s[..i]).Some?
  {
    var n := 0;
    for i := 0 to |s|
      invariant Decode(s[..i]) == Some(n)
    {
      assert s[..i + 1][..i] == s[..i];
      var d := Find(s[i]);
      if d.None? {
        DecodeNeedsPrefix(s, i + 1);
        return Err(InvalidCharacter(s[i]));
      }
      n := n * 62 + d.value;
    }
    assert s[..|s|] == s;
    return Ok(n);
  }

  lemma {:induction false} DecodeNeedsPrefix(s: string, i: nat)
    requires i <= |s| && Decode(s[..i]).None?
    ensures Decode(s).None?
    decreases |s| - i
  {
    if i == |s| {
      assert s[..i] == s;
    } else {
      assert s[..i + 1][..i] == s[..i];
      DecodeNeedsPrefix(s, i + 1);
    }
  }

  // ---------------------------------------------------------------- round trips

  lemma {:induction false} DecodeDigits(n: nat)
    ensures Decode(Digits(n)) == Some(n)
  {
    if n > 0 {
      DecodeDigits(n / 62);
      DecodeNext(Digits(n / 62), Char(n % 62));
      FindChar(n % 62);
    }
  }

  lemma {:induction false} DecodeEncode(n: nat)
    ensures Decode(Encode(n)) == Some(n)
  {
    DecodeDigits(n);
    FindChar(0);
    assert [Char(0)][..0] == "";
  }

  lemma {:induction false} EncodeIsInjective(m: nat, n: nat)
    requires Encode(m) == Encode(n)
    ensures m == n
  {
    DecodeEncode(m);
    DecodeEncode(n);
  }

  ghost predicate Valid(s: string) {
    forall i | 0 <= i < |s| :: Find(s[i]).Some?
  }

  /** No superfluous leading zero. */
  ghost predicate Canonical(s: string) {
    Valid(s) && s != "" && (s[0] == Char(0) ==> |s| == 1)
  }

  lemma {:induction false} DecodesIffValid(s: string)
    ensures Decode(s).Some? <==> Valid(s)
  {
    if s != "" {
      var front := s[..|s| - 1];
      DecodesIffValid(front);
      assert forall i | 0 <= i < |front| :: front[i] == s[i];
    }
  }

  lemma {:induction false} DecodeAppend(u: string, c: char)
    requires Valid(u) && Find(c).Some?
    ensures Valid(u + [c])
    ensures Decode(u).Some? && Decode(u + [c]) == Some(Decode(u).value * 62 + Find(c).value)
  {
    DecodesIffValid(u);
    DecodeNext(u, c);
  }

  lemma {:induction false} DigitsAppend(n: nat, d: nat)
    requires d < 62 && (n > 0 || d > 0)
    ensures Digits(n * 62 + d) == Digits(n) + [Char(d)]
  {
    assert (n * 62 + d) / 62 == n && (n * 62 + d) % 62 == d;
  }

  /** `Digits` undoes `Decode` on `s`, whose value is positive. */
  ghost predicate Recovered(s: string) {
    Decode(s).Some? && Decode(s).value > 0 && Digits(Decode(s).value) == s
  }

  lemma {:induction false} RecoveredNext(u: string, c: char)
    requires Valid(u) && Find(c).Some?
    requires (u == "" && c != Char(0)) || Recovered(u)
    ensures Recovered(u + [c])
  {
    DecodeAppend(u, c);
    DigitsAppend(Decode(u).value, Find(c).value);
  }

  lemma {:induction false} DigitsDecode(s: string)
    requires Valid(s) && s != "" && s[0] != Char(0)
    ensures Recovered(s)
  {
    var front, c := s[..|s| - 1], s[|s| - 1];
    assert s == front + [c];
    if front != "" { DigitsDecode(front); }
    RecoveredNext(front, c);
  }

  lemma {:induction false} DigitsAreCanonical(n: nat)
    requires n > 0
    ensures Canonical(Digits(n)) && Digits(n)[0] != Char(0)
  {
    if n < 62 {
      FindChar(n);
      FindChar(0);
      assert n / 62 == 0 && Digits(0) == "";
    } else {
      DigitsAreCanonical(n / 62);
      FindChar(n % 62);
    }
  }

  /** `encode(decode(s)) == s` for exactly the strings without a superfluous leading zero. */
  lemma {:induction false} EncodeDecodeIffCanonical(s: string)
    ensures (Decode(s).Some? && Encode(Decode(s).value) == s) <==> Canonical(s)
  {
    DecodesIffValid(s);
    FindChar(0);
    if Canonical(s) {
      if s[0] == Char(0) {
        assert s == [Char(0)] && s[..0] == "";
      } else {
        DigitsDecode(s);
      }
    }
    if Decode(s).Some? && Decode(s).value > 0 { DigitsAreCanonical(Decode(s).value); }
  }

  // ---------------------------------------------------------------- length and order

  function Pow62(k: nat): nat {
    if k == 0 then 1 else 62 * Pow62(k - 1)
  }

  lemma {:induction false} DigitsBounds(n: nat)
    requires n > 0
    ensures |Digits(n)| > 0 && Pow62(|Digits(n)| - 1) <= n < Pow62(|Digits(n)|)
  {
    var q, k := n / 62, |Digits(n / 62)|;
    assert |Digits(n)| == k + 1 && Pow62(k + 1) == 62 * Pow62(k) && Pow62(0) == 1;
    if q > 0 {
      DigitsBounds(q);
      assert Pow62(k) == 62 * Pow62(k - 1);
    }
  }

  lemma {:induction false} Pow62Grows(j: nat, k: nat)
    requires j <= k
    ensures Pow62(j) <= Pow62(k)
    decreases k
  {
    if j < k { Pow62Grows(j, k - 1); }
  }

  /** A positive number has a code of length `k` exactly when it lies between the powers of 62. */
  lemma {:induction false} LengthIff(n: nat, k: nat)
    requires n > 0 && k > 0
    ensures |Encode(n)| == k <==> Pow62(k - 1) <= n < Pow62(k)
  {
    DigitsBounds(n);
    var len := |Digits(n)|;
    if len < k { Pow62Grows(len, k - 1); }
    if k < len { Pow62Grows(k, len - 1); }
  }

  /** Comparison of strings by code points. */
  predicate Less(s: string, t: string) {
    t != "" && (s == "" || s[0] < t[0] || (s[0] == t[0] && Less(s[1..], t[1..])))
  }

  lemma {:induction false} LessAppend(s: string, t: string, c: char, d: char)
    requires |s| == |t|
    ensures Less(s + [c], t + [d]) <==> Less(s, t) || (s == t && c < d)
  {
    if s == "" {
      assert [c][1..] == "" && [d][1..] == "";
    } else {
      assert (s + [c])[1..] == s[1..] + [c] && (t + [d])[1..] == t[1..] + [d];
      LessAppend(s[1..], t[1..], c, d);
      assert s == [s[0]] + s[1..] && t == [t[0]] + t[1..];
    }
  }

  lemma {:induction false} CompareByLeadingDigits(m: nat, n: nat, a: nat, b: nat)
    requires a < 62 && b < 62
    ensures m * 62 + a < n * 62 + b <==> m < n || (m == n && a < b)
  {
  }

  lemma {:induction false} SameValueSameLastDigit(u: string, v: string, c: char, d: char)
    requires Valid(u) && Valid(v) && Find(c).Some? && Find(d).Some? && Decode(u + [c]) == Decode(v + [d])
    ensures Decode(u) == Decode(v) && c == d
  {
    DecodeAppend(u, c);
    DecodeAppend(v, d);
    CompareByLeadingDigits(Decode(u).value, Decode(v).value, Find(c).value, Find(d).value);
    CompareByLeadingDigits(Decode(v).value, Decode(u).value, Find(d).value, Find(c).value);
  }

  lemma {:induction false} DecodeIsInjective(s: string, t: string)
    requires |s| == |t| && Valid(s) && Valid(t) && Decode(s) == Decode(t)
    ensures s == t
  {
    if s != "" {
      var i := |s| - 1;
      assert s == s[..i] + [s[i]] && t == t[..i] + [t[i]];
      SameValueSameLastDigit(s[..i], t[..i], s[i], t[i]);
      DecodeIsInjective(s[..i], t[..i]);
    }
  }

  /** Among codes of one length, string order is numeric order. */
  lemma {:induction false} OrderPreserved(s: string, t: string)
    requires |s| == |t| && Valid(s) && Valid(t)
    ensures Decode(s).Some? && Decode(t).Some?
    ensures Less(s, t) <==> Decode(s).value < Decode(t).value
    decreases |s|, 1
  {
    DecodesIffValid(s);
    DecodesIffValid(t);
    if s != "" {
      var i := |s| - 1;
      OrderStep(s[..i], t[..i], s[i], t[i]);
      assert s == s[..i] + [s[i]] && t == t[..i] + [t[i]];
    }
  }

  lemma {:induction false} OrderStep(u: string, v: string, c: char, d: char)
    requires |u| == |v| && Valid(u) && Valid(v) && Find(c).Some? && Find(d).Some?
    ensures Decode(u + [c]).Some? && Decode(v + [d]).Some?
    ensures Less(u + [c], v + [d]) <==> Decode(u + [c]).value < Decode(v + [d]).value
    decreases |u| + 1, 0
  {
    DecodeAppend(u, c);
    DecodeAppend(v, d);
    OrderPreserved(u, v);
    LessAppend(u, v, c, d);
    if Decode(u) == Decode(v) { DecodeIsInjective(u, v); }
    AlphabetIsSorted(Find(c).value, Find(d).value);
    CompareByLeadingDigits(Decode(u).value, Decode(v).value, Find(c).value, Find(d).value);
  }
}
