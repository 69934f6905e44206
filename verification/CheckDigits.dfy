/** Check-digit arithmetic: which typing errors the checksums of the validator registry catch. */
module CheckDigits {

  // ---- Digits and numbers --------------------------------------------------

  predicate IsDigit(c: char) { '0' <= c <= '9' }

  predicate IsUpper(c: char) { 'A' <= c <= 'Z' }

  predicate AllDigits(s: string) { forall i :: 0 <= i < |s| ==> IsDigit(s[i]) }

  predicate AllAlnum(s: string) { forall i :: 0 <= i < |s| ==> IsDigit(s[i]) || IsUpper(s[i]) }

  /** A change that swaps a digit for a digit or a letter for a letter. */
  predicate SameKind(c: char, d: char) { (IsDigit(c) && IsDigit(d)) || (IsUpper(c) && IsUpper(d)) }

  /** Python's `int(c, 36)`. */
  function Value(c: char): int
    requires IsDigit(c) || IsUpper(c)
  {
    if IsDigit(c) then c as int - '0' as int else c as int - 'A' as int + 10
  }

  function DigitChar(d: int): char
    requires 0 <= d < 10
  {
    ('0' as int + d) as char
  }

  /** Python's `int` of a string of digits. */
  function ToInt(s: string): nat
    requires AllDigits(s)
  {
    if |s| == 0 then 0 else ToInt(s[..|s| - 1]) * 10 + Value(s[|s| - 1])
  }

  /** A letter spelt out as two digits. */
  function Code(c: char): (r: string)
    requires IsDigit(c) || IsUpper(c)
    ensures AllDigits(r)
  {
    if IsDigit(c) then [c] else [DigitChar(Value(c) / 10), DigitChar(Value(c) % 10)]
  }

  function Numeric(s: string): (r: string)
    requires AllAlnum(s)
    ensures AllDigits(r)
  {
    if |s| == 0 then "" else Numeric(s[..|s| - 1]) + Code(s[|s| - 1])
  }

  /** `s` with the symbols at `i` and `i + 1` exchanged. */
  function Swapped<T>(s: seq<T>, i: nat): seq<T>
    requires i + 1 < |s|
  {
    s[..i] + [s[i + 1], s[i]] + s[i + 2..]
  }

  lemma SwappedAt<T>(s: seq<T>, i: nat, k: nat)
    requires i + 1 < |s| && k < |s|
    ensures Swapped(s, i)[k] == if k == i then s[i + 1] else if k == i + 1 then s[i] else s[k]
  {
  }

  // ---- Remainders, symbol by symbol ----------------------------------------

  /** The two moduli the registry uses; ten is invertible under both. */
  predicate Modulus(m: int) { m == 23 || m == 97 }

  function Mod(m: int, x: int): (r: int)
    requires Modulus(m)
    ensures 0 <= r < m
  {
    if m == 23 then x % 23 else x % 97
  }

  /** Making room for one more symbol: a digit shifts one place, a letter two. */
  function Shift(n: int, c: char): int { if IsDigit(c) then n * 10 else n * 100 }

  function Step(m: int, r: int, c: char): int
    requires Modulus(m) && (IsDigit(c) || IsUpper(c))
  {
    Mod(m, Shift(r, c) + Value(c))
  }

  function Remainder(m: int, s: string): (r: int)
    requires Modulus(m) && AllAlnum(s)
    ensures 0 <= r < m
  {
    if |s| == 0 then 0 else Step(m, Remainder(m, s[..|s| - 1]), s[|s| - 1])
  }

  lemma Congruent(m: int, a: int, b: int) returns (q: int)
    requires Modulus(m)
    ensures Mod(m, a) == Mod(m, b) ==> a - b == if m == 23 then 23 * q else 97 * q
  {
    q := if m == 23 then a / 23 - b / 23 else a / 97 - b / 97;
  }

  lemma Multiple(m: int, a: int, b: int, q: int)
    requires Modulus(m) && a - b == if m == 23 then 23 * q else 97 * q
    ensures Mod(m, a) == Mod(m, b)
  {
    if m == 23 {
      assert a / 23 == b / 23 + q;
    } else {
      assert a / 97 == b / 97 + q;
    }
  }

  /** Reading a symbol from a number or from its remainder gives the same remainder. */
  lemma ShiftRemainder(m: int, n: int, c: char)
    requires Modulus(m) && (IsDigit(c) || IsUpper(c))
    ensures Mod(m, Shift(n, c) + Value(c)) == Step(m, Mod(m, n), c)
  {
    var q := if m == 23 then n / 23 else n / 97;
    Multiple(m, Shift(n, c) + Value(c), Shift(Mod(m, n), c) + Value(c), Shift(q, c));
  }

  /** Ten and a hundred are invertible: 7 and 3 undo them modulo 23, 68 and 65 modulo 97. */
  lemma NoCarry(m: int, d: int, c: char, q: int)
    requires Modulus(m) && -m < d < m && Shift(d, c) == if m == 23 then 23 * q else 97 * q
    ensures d == 0
  {
    if m == 23 && IsDigit(c) {
      assert d == 23 * (7 * q - 3 * d);
    } else if m == 23 {
      assert d == 23 * (3 * q - 13 * d);
    } else if IsDigit(c) {
      assert d == 97 * (68 * q - 7 * d);
    } else {
      assert d == 97 * (65 * q - 67 * d);
    }
  }

  lemma TwoMoreDigits(s: string, c: char, d: char)
    requires AllDigits(s) && IsDigit(c) && IsDigit(d)
    ensures ToInt(s + [c, d]) == (ToInt(s) * 10 + Value(c)) * 10 + Value(d)
  {
    assert (s + [c, d])[..|s| + 1] == s + [c];
    assert (s + [c])[..|s|] == s;
  }

  lemma NumberGrows(n: string, c: char)
    requires AllDigits(n) && (IsDigit(c) || IsUpper(c))
    ensures ToInt(n + Code(c)) == Shift(ToInt(n), c) + Value(c)
  {
    if IsDigit(c) {
      assert (n + [c])[..|n|] == n;
    } else {
      TwoMoreDigits(n, Code(c)[0], Code(c)[1]);
    }
  }

  /** The number a string spells, symbol by symbol. */
  function Reading(s: string): int
    requires AllAlnum(s)
  {
    if |s| == 0 then 0 else Shift(Reading(s[..|s| - 1]), s[|s| - 1]) + Value(s[|s| - 1])
  }

  lemma {:induction false} NumberIsReading(s: string)
    requires AllAlnum(s)
    ensures ToInt(Numeric(s)) == Reading(s)
  {
    if |s| > 0 {
      NumberIsReading(s[..|s| - 1]);
      NumberGrows(Numeric(s[..|s| - 1]), s[|s| - 1]);
    }
  }

  lemma {:induction false} RemainderOfReading(m: int, s: string)
    requires Modulus(m) && AllAlnum(s)
    ensures Mod(m, Reading(s)) == Remainder(m, s)
  {
    if |s| > 0 {
      RemainderOfReading(m, s[..|s| - 1]);
      ShiftRemainder(m, Reading(s[..|s| - 1]), s[|s| - 1]);
    }
  }

  /** Converting the whole number and taking its remainder is reading it symbol by symbol. */
  lemma RemainderOfNumber(m: int, s: string)
    requires Modulus(m) && AllAlnum(s)
    ensures Mod(m, ToInt(Numeric(s))) == Remainder(m, s)
  {
    NumberIsReading(s);
    RemainderOfReading(m, s);
  }

  lemma {:induction false} DigitsAreNumeric(s: string)
    requires AllDigits(s)
    ensures Numeric(s) == s
  {
    if |s| > 0 {
      DigitsAreNumeric(s[..|s| - 1]);
    }
  }

  /** Reading one symbol never makes different remainders equal. */
  lemma StepIsInjective(m: int, r: int, r': int, c: char)
    requires Modulus(m) && 0 <= r < m && 0 <= r' < m && (IsDigit(c) || IsUpper(c))
    ensures Step(m, r, c) == Step(m, r', c) ==> r == r'
  {
    var q := Congruent(m, Shift(r, c) + Value(c), Shift(r', c) + Value(c));
    if Step(m, r, c) == Step(m, r', c) {
      NoCarry(m, r - r', c, q);
    }
  }

  lemma {:induction false} TailKeepsDifference(m: int, p: string, p': string, tail: string)
    requires Modulus(m) && AllAlnum(p) && AllAlnum(p') && AllAlnum(tail)
    requires Remainder(m, p) != Remainder(m, p')
    ensures Remainder(m, p + tail) != Remainder(m, p' + tail)
  {
    if |tail| == 0 {
      assert p + tail == p && p' + tail == p';
    } else {
      var front, c := tail[..|tail| - 1], tail[|tail| - 1];
      TailKeepsDifference(m, p, p', front);
      assert (p + tail)[..|p + tail| - 1] == p + front;
      assert (p' + tail)[..|p' + tail| - 1] == p' + front;
      StepIsInjective(m, Remainder(m, p + front), Remainder(m, p' + front), c);
    }
  }

  lemma {:induction false} TailKeepsEquality(m: int, p: string, p': string, tail: string)
    requires Modulus(m) && AllAlnum(p) && AllAlnum(p') && AllAlnum(tail)
    requires Remainder(m, p) == Remainder(m, p')
    ensures Remainder(m, p + tail) == Remainder(m, p' + tail)
  {
    if |tail| == 0 {
      assert p + tail == p && p' + tail == p';
    } else {
      var front := tail[..|tail| - 1];
      TailKeepsEquality(m, p, p', front);
      assert (p + tail)[..|p + tail| - 1] == p + front;
      assert (p' + tail)[..|p' + tail| - 1] == p' + front;
    }
  }

  /** Replacing one symbol by another of its kind always changes the remainder. */
  lemma OneChangeShows(m: int, s: string, i: nat, c: char)
    requires Modulus(m) && AllAlnum(s) && i < |s| && c != s[i] && SameKind(c, s[i]) && (m == 23 ==> IsDigit(c))
    ensures AllAlnum(s[i := c]) && Remainder(m, s) != Remainder(m, s[i := c])
  {
    var p, tail := s[..i], s[i + 1..];
    assert s == p + [s[i]] + tail && s[i := c] == p + [c] + tail;
    assert (p + [s[i]])[..i] == p && (p + [c])[..i] == p;
    LastShows(m, Remainder(m, p), s[i], c);
    TailKeepsDifference(m, p + [s[i]], p + [c], tail);
  }

  lemma LastShows(m: int, r: int, c: char, d: char)
    requires Modulus(m) && c != d && SameKind(c, d) && (m == 23 ==> IsDigit(c))
    ensures Step(m, r, c) != Step(m, r, d)
  {
    var q := Congruent(m, Shift(r, c) + Value(c), Shift(r, c) + Value(d));
  }

  /** The letter-digit pairs whose exchange the remainder modulo 97 cannot see: B1, M2 and X3. */
  predicate BlindPair(c: char, d: char) {
    (c == 'B' && d == '1') || (c == 'M' && d == '2') || (c == 'X' && d == '3')
  }

  predicate Unseen(c: char, d: char) { c == d || BlindPair(c, d) || BlindPair(d, c) }

  lemma PairShows(m: int, r: int, c: char, d: char)
    requires Modulus(m) && 0 <= r < m && (IsDigit(c) || IsUpper(c)) && (IsDigit(d) || IsUpper(d))
    requires m == 23 ==> IsDigit(c) && IsDigit(d)
    ensures Step(m, Step(m, r, c), d) == Step(m, Step(m, r, d), c) <==> Unseen(c, d)
  {
    ShiftRemainder(m, Shift(r, c) + Value(c), d);
    ShiftRemainder(m, Shift(r, d) + Value(d), c);
    PairDifference(m, Shift(Shift(r, c) + Value(c), d) + Value(d), Shift(Shift(r, d) + Value(d), c) + Value(c), c, d);
  }

  lemma PairDifference(m: int, a: int, b: int, c: char, d: char)
    requires Modulus(m) && (IsDigit(c) || IsUpper(c)) && (IsDigit(d) || IsUpper(d))
    requires m == 23 ==> IsDigit(c) && IsDigit(d)
    requires a - b == Shift(Value(c), d) - Value(c) - (Shift(Value(d), c) - Value(d))
    ensures Mod(m, a) == Mod(m, b) <==> Unseen(c, d)
  {
    var q := Congruent(m, a, b);
    if m == 23 {
      SmallMultiple23(Value(c) - Value(d), q);
    } else if IsDigit(c) == IsDigit(d) {
      SmallMultiple97(Value(c) - Value(d), q);
    } else if IsUpper(c) {
      SmallMultiple97(Value(c) - 11 * Value(d), q);
    } else {
      SmallMultiple97(11 * Value(c) - Value(d), q);
    }
  }

  lemma SmallMultiple23(x: int, q: int)
    requires -23 < x < 23
    ensures 9 * x == 23 * q ==> x == 0
  {
    if 9 * x == 23 * q {
      assert x == 23 * (18 * q - 7 * x);
    }
  }

  /** 54 undoes 9 modulo 97, and 49 undoes 99. */
  lemma SmallMultiple97(x: int, q: int)
    requires -97 < x < 97
    ensures 9 * x == 97 * q ==> x == 0
    ensures 99 * x == 97 * q ==> x == 0
  {
    if 9 * x == 97 * q {
      assert x == 97 * (54 * q - 5 * x);
    }
    if 99 * x == 97 * q {
      assert x == 97 * (49 * q - 50 * x);
    }
  }

  /** Exchanging two neighbours shows exactly when they differ and are no blind pair. */
  lemma OneSwapShows(m: int, s: string, i: nat)
    requires Modulus(m) && AllAlnum(s) && i + 1 < |s|
    requires m == 23 ==> IsDigit(s[i]) && IsDigit(s[i + 1])
    ensures AllAlnum(Swapped(s, i)) && (Remainder(m, s) == Remainder(m, Swapped(s, i)) <==> Unseen(s[i], s[i + 1]))
  {
    var p, c, d, tail := s[..i], s[i], s[i + 1], s[i + 2..];
    assert s == p + [c, d] + tail;
    PairRemainder(m, p, c, d);
    PairRemainder(m, p, d, c);
    PairShows(m, Remainder(m, p), c, d);
    if Unseen(c, d) {
      TailKeepsEquality(m, p + [c, d], p + [d, c], tail);
    } else {
      TailKeepsDifference(m, p + [c, d], p + [d, c], tail);
    }
  }

  lemma PairRemainder(m: int, p: string, c: char, d: char)
    requires Modulus(m) && AllAlnum(p) && (IsDigit(c) || IsUpper(c)) && (IsDigit(d) || IsUpper(d))
    ensures Remainder(m, p + [c, d]) == Step(m, Step(m, Remainder(m, p), c), d)
  {
    assert (p + [c, d])[..|p| + 1] == p + [c];
    assert (p + [c])[..|p|] == p;
  }

  // ---- IBAN (ISO/IEC 7064 MOD 97-10) ---------------------------------------

  predicate IbanShape(s: string) {
    && 14 <= |s| <= 34
    && IsUpper(s[0]) && IsUpper(s[1]) && IsDigit(s[2]) && IsDigit(s[3])
    && AllAlnum(s)
  }

  /** The check on a candidate already stripped of blanks and upper-cased. */
  predicate CheckIban(s: string) {
    IbanShape(s) && ToInt(Numeric(s[4..] + s[..4])) % 97 == 1
  }

  lemma IbanRemainder(s: string)
    requires IbanShape(s)
    ensures CheckIban(s) <==> Remainder(97, s[4..] + s[..4]) == 1
  {
    RemainderOfNumber(97, s[4..] + s[..4]);
  }

  /** No valid IBAN stays valid when one symbol is replaced by another of its kind. */
  lemma IbanCatchesOneChange(s: string, i: nat, c: char)
    requires CheckIban(s) && i < |s| && c != s[i] && SameKind(c, s[i])
    ensures IbanShape(s[i := c]) && !CheckIban(s[i := c])
  {
    var t := s[i := c];
    var at := if i < 4 then i + |s| - 4 else i - 4;
    assert (s[4..] + s[..4])[at := c] == t[4..] + t[..4];
    IbanRemainder(s);
    IbanRemainder(t);
    OneChangeShows(97, s[4..] + s[..4], at, c);
  }

  lemma SwapInFront(a: string, b: string, i: nat)
    requires i + 1 < |a|
    ensures Swapped(a, i) + b == Swapped(a + b, i)
  {
  }

  lemma SwapInBack(a: string, b: string, i: nat)
    requires i + 1 < |b|
    ensures a + Swapped(b, i) == Swapped(a + b, |a| + i)
  {
  }

  /** A pair that does not straddle the end of the first four symbols stays a pair when they move back. */
  lemma SwapThenRotate(s: string, i: nat)
    requires 4 <= |s| && i + 1 < |s| && i != 3
    ensures Swapped(s, i)[4..] + Swapped(s, i)[..4] == Swapped(s[4..] + s[..4], if i < 3 then i + |s| - 4 else i - 4)
  {
    var t := Swapped(s, i);
    if i < 3 {
      assert t[4..] == s[4..] && t[..4] == Swapped(s[..4], i);
      SwapInBack(s[4..], s[..4], i);
    } else {
      assert t[..4] == s[..4] && t[4..] == Swapped(s[4..], i - 4);
      SwapInFront(s[4..], s[..4], i - 4);
    }
  }

  // The last check digit and the first account symbol stand at the two ends of what is read.

  /** How far `s` shifts what stands before it, as a power of ten. */
  function Weight(s: string): int
    requires AllAlnum(s)
  {
    if |s| == 0 then 1 else Shift(Weight(s[..|s| - 1]), s[|s| - 1])
  }

  function Places(s: string): nat {
    if |s| == 0 then 0 else Places(s[..|s| - 1]) + if IsDigit(s[|s| - 1]) then 1 else 2
  }

  lemma ScaledShift(v: int, w: int, r: int, c: char)
    ensures Shift(v * w + r, c) == v * Shift(w, c) + Shift(r, c)
  {
    assert v * (w * 10) == (v * w) * 10 && v * (w * 100) == (v * w) * 100;
  }

  lemma {:induction false} ReadingFrom(c: char, s: string)
    requires (IsDigit(c) || IsUpper(c)) && AllAlnum(s)
    ensures Reading([c] + s) == Value(c) * Weight(s) + Reading(s)
  {
    if |s| == 0 {
      assert |([c] + s)[..0]| == 0;
    } else {
      var front := s[..|s| - 1];
      ReadingFrom(c, front);
      assert ([c] + s)[..|s|] == [c] + front;
      ScaledShift(Value(c), Weight(front), Reading(front), s[|s| - 1]);
    }
  }

  /** What `c`, a middle of weight `w` that reads `r`, and `d` read. */
  function Ends(c: int, w: int, r: int, d: int): int { (c * w + r) * 10 + d }

  lemma EndsReading(c: char, s: string, d: char)
    requires IsDigit(c) && IsDigit(d) && AllAlnum(s)
    ensures Reading([c] + s + [d]) == Ends(Value(c), Weight(s), Reading(s), Value(d))
  {
    ReadingFrom(c, s);
    assert ([c] + s + [d])[..|s| + 1] == [c] + s;
  }

  function Power(n: nat): (r: int)
    ensures 0 <= r < 97
  {
    if n == 0 then 1 else Power(n - 1) * 10 % 97
  }

  lemma ShiftedWeight(w: int, p: int)
    requires w % 97 == p
    ensures (w * 10) % 97 == (p * 10) % 97 && (w * 100) % 97 == (p * 10 % 97) * 10 % 97
  {
    var j, k, t := p * 10 / 97, w / 97, p * 10 % 97;
    Multiple(97, w * 10, p * 10, 10 * k);
    Multiple(97, w * 100, t * 10, 100 * k + 10 * j);
  }

  lemma {:induction false} WeightIsPower(s: string)
    requires AllAlnum(s)
    ensures Weight(s) % 97 == Power(Places(s)) && Places(s) <= 2 * |s|
  {
    if |s| > 0 {
      var front := s[..|s| - 1];
      var n := Places(front);
      WeightIsPower(front);
      ShiftedWeight(Weight(front), Power(n));
      assert Power(n + 1) == Power(n) * 10 % 97 && Power(n + 2) == Power(n + 1) * 10 % 97;
    }
  }

  /** Up to `n` no power of ten is 68, the inverse of ten, modulo 97. */
  predicate NoInverse(n: nat) { Power(n) != 68 && (n == 0 || NoInverse(n - 1)) }

  lemma Ten(n: nat, r: int) returns (next: nat)
    requires NoInverse(n) && Power(n) * 10 % 97 == r != 68
    ensures next == n + 1 && NoInverse(next) && Power(next) == r
  {
    next := n + 1;
  }

  /** Ten has order 96 modulo 97: its powers come back to the inverse only at 95. */
  lemma PowersOfTen() returns (n: nat)
    ensures n == 64 && NoInverse(n)
  {
    n := 0;
    n := Ten(n, 10); n := Ten(n, 3); n := Ten(n, 30); n := Ten(n, 9); n := Ten(n, 90); n := Ten(n, 27);
    n := Ten(n, 76); n := Ten(n, 81); n := Ten(n, 34); n := Ten(n, 49); n := Ten(n, 5); n := Ten(n, 50);
    n := Ten(n, 15); n := Ten(n, 53); n := Ten(n, 45); n := Ten(n, 62); n := Ten(n, 38); n := Ten(n, 89);
    n := Ten(n, 17); n := Ten(n, 73); n := Ten(n, 51); n := Ten(n, 25); n := Ten(n, 56); n := Ten(n, 75);
    n := Ten(n, 71); n := Ten(n, 31); n := Ten(n, 19); n := Ten(n, 93); n := Ten(n, 57); n := Ten(n, 85);
    n := Ten(n, 74); n := Ten(n, 61); n := Ten(n, 28); n := Ten(n, 86); n := Ten(n, 84); n := Ten(n, 64);
    n := Ten(n, 58); n := Ten(n, 95); n := Ten(n, 77); n := Ten(n, 91); n := Ten(n, 37); n := Ten(n, 79);
    n := Ten(n, 14); n := Ten(n, 43); n := Ten(n, 42); n := Ten(n, 32); n := Ten(n, 29); n := Ten(n, 96);
    n := Ten(n, 87); n := Ten(n, 94); n := Ten(n, 67); n := Ten(n, 88); n := Ten(n, 7); n := Ten(n, 70);
    n := Ten(n, 21); n := Ten(n, 16); n := Ten(n, 63); n := Ten(n, 48); n := Ten(n, 92); n := Ten(n, 47);
    n := Ten(n, 82); n := Ten(n, 44); n := Ten(n, 52); n := Ten(n, 35);
  }

  lemma {:induction false} NoInverseBelow(n: nat, k: nat)
    requires k <= n && NoInverse(n)
    ensures Power(k) != 68
  {
    if k != n {
      NoInverseBelow(n - 1, k);
    }
  }

  /** `i` undoes `x` modulo 97. */
  lemma CancelBy(i: int, x: int, over: int, y: int, q: int)
    requires i * x == 97 * over + 1 && x * y == 97 * q
    ensures y % 97 == 0
  {
    assert i * (x * y) == (i * x) * y == (97 * over + 1) * y == 97 * (over * y) + y;
    assert i * (97 * q) == 97 * (i * q);
    Multiple(97, y, 0, i * q - over * y);
  }

  /** A digit's difference has an inverse modulo 97. */
  lemma Cancel(x: int, y: int, q: int)
    requires 1 <= x <= 9 && x * y == 97 * q
    ensures y % 97 == 0
  {
    match x
    case 1 => CancelBy(1, 1, 0, y, q);
    case 2 => CancelBy(49, 2, 1, y, q);
    case 3 => CancelBy(65, 3, 2, y, q);
    case 4 => CancelBy(73, 4, 3, y, q);
    case 5 => CancelBy(39, 5, 2, y, q);
    case 6 => CancelBy(81, 6, 5, y, q);
    case 7 => CancelBy(14, 7, 1, y, q);
    case 8 => CancelBy(85, 8, 7, y, q);
    case 9 => CancelBy(54, 9, 5, y, q);
  }

  lemma EndsDifference(c: int, d: int, w: int, r: int)
    ensures Ends(c, w, r, d) - Ends(d, w, r, c) == (c - d) * (10 * w - 1)
  {
  }

  lemma EndsDiffer(c: int, d: int, w: int, r: int)
    requires 0 <= d < c < 10
    ensures Mod(97, Ends(c, w, r, d)) == Mod(97, Ends(d, w, r, c)) ==> Mod(97, w) == 68
  {
    var a, b := Ends(c, w, r, d), Ends(d, w, r, c);
    var q := Congruent(97, a, b);
    EndsDifference(c, d, w, r);
    if Mod(97, a) == Mod(97, b) {
      Cancel(c - d, 10 * w - 1, q);
      InverseOfTen(w);
    }
  }

  lemma InverseOfTen(w: int)
    requires (10 * w - 1) % 97 == 0
    ensures w % 97 == 68
  {
    var k := (10 * w - 1) / 97;
    assert 10 * w - 1 == 97 * k;
    Multiple(97, w, 68, 68 * k - 7 * w);
  }

  lemma DigitsAtEnds(c: char, s: string, d: char)
    requires IsDigit(c) && IsDigit(d) && AllAlnum(s)
    ensures AllAlnum([c] + s + [d])
    ensures Remainder(97, [c] + s + [d]) == Mod(97, Ends(Value(c), Weight(s), Reading(s), Value(d)))
  {
    EndsReading(c, s, d);
    RemainderOfReading(97, [c] + s + [d]);
  }

  lemma NeverInverse(s: string)
    requires AllAlnum(s) && |s| <= 32
    ensures Mod(97, Weight(s)) != 68
  {
    WeightIsPower(s);
    var n := PowersOfTen();
    NoInverseBelow(n, Places(s));
  }

  lemma LargerFirst(c: char, s: string, d: char, one: string, other: string)
    requires IsDigit(c) && IsDigit(d) && AllAlnum(s) && |s| <= 32 && d < c
    requires one == [c] + s + [d] && other == [d] + s + [c] && AllAlnum(one) && AllAlnum(other)
    ensures Remainder(97, one) != Remainder(97, other)
  {
    DigitsAtEnds(c, s, d);
    DigitsAtEnds(d, s, c);
    NeverInverse(s);
    EndsDiffer(Value(c), Value(d), Weight(s), Reading(s));
  }

  /** Exchanging two different digits at the ends of what is read shows. */
  lemma EndsShow(c: char, s: string, d: char, one: string, other: string)
    requires IsDigit(c) && IsDigit(d) && AllAlnum(s) && |s| <= 32
    requires one == [c] + s + [d] && other == [d] + s + [c] && AllAlnum(one) && AllAlnum(other)
    ensures Remainder(97, one) == Remainder(97, other) <==> c == d
  {
    if d < c {
      LargerFirst(c, s, d, one, other);
    } else if c < d {
      LargerFirst(d, s, c, other, one);
    } else {
      assert one == other;
    }
  }

  lemma SwapShape(s: string, i: nat)
    requires IbanShape(s) && i + 1 < |s|
    ensures IbanShape(Swapped(s, i)) <==> i != 1 && (i == 3 ==> IsDigit(s[4]))
  {
    var t := Swapped(s, i);
    assert t[i] == s[i + 1] && t[i + 1] == s[i];
    assert forall k :: 0 <= k < |t| && k != i && k != i + 1 ==> t[k] == s[k];
  }

  lemma RotatedSwapShows(s: string, t: string, at: nat)
    requires CheckIban(s) && IbanShape(t) && at + 1 < |s|
    requires t[4..] + t[..4] == Swapped(s[4..] + s[..4], at)
    ensures CheckIban(t) <==> Unseen((s[4..] + s[..4])[at], (s[4..] + s[..4])[at + 1])
  {
    IbanRemainder(s);
    IbanRemainder(t);
    OneSwapShows(97, s[4..] + s[..4], at);
  }

  lemma RotatedEnds(s: string)
    requires 5 <= |s|
    ensures s[4..] + s[..4] == [s[4]] + (s[5..] + s[..3]) + [s[3]]
    ensures Swapped(s, 3)[4..] + Swapped(s, 3)[..4] == [s[3]] + (s[5..] + s[..3]) + [s[4]]
  {
    var t := Swapped(s, 3);
    assert t[..4] == s[..3] + [s[4]] && t[4..] == [s[3]] + s[5..];
    assert s[..4] == s[..3] + [s[3]] && s[4..] == [s[4]] + s[5..];
  }

  lemma EndSwapShows(s: string)
    requires CheckIban(s) && IbanShape(Swapped(s, 3)) && IsDigit(s[4])
    ensures CheckIban(Swapped(s, 3)) <==> s[3] == s[4]
  {
    RotatedEnds(s);
    IbanRemainder(s);
    IbanRemainder(Swapped(s, 3));
    var t := Swapped(s, 3);
    EndsShow(s[4], s[5..] + s[..3], s[3], s[4..] + s[..4], t[4..] + t[..4]);
  }

  /** Exchanging two different neighbours invalidates the IBAN, but for the three blind pairs within
      the account part, which never do. */
  lemma IbanCatchesSwaps(s: string, i: nat)
    requires CheckIban(s) && i + 1 < |s|
    ensures CheckIban(Swapped(s, i)) <==>
              i != 1 && if i == 3 then s[i] == s[i + 1] else Unseen(s[i], s[i + 1])
  {
    SwapShape(s, i);
    if i == 3 && IsDigit(s[4]) {
      EndSwapShows(s);
    } else if i != 1 && i != 3 {
      var at := if i < 3 then i + |s| - 4 else i - 4;
      SwapThenRotate(s, i);
      RotatedSwapShows(s, Swapped(s, i), at);
      assert (s[4..] + s[..4])[at] == s[i] && (s[4..] + s[..4])[at + 1] == s[i + 1];
    }
  }

  // ---- Luhn (ISO/IEC 7812-1 Annex B) ---------------------------------------

  function Weighted(d: int, doubled: bool): int {
    if doubled then (if d * 2 > 9 then d * 2 - 9 else d * 2) else d
  }

  predicate Digital(ds: seq<int>) { forall i :: 0 <= i < |ds| ==> 0 <= ds[i] <= 9 }

  /** The weighted sum read from the right: every other digit doubled, starting as told. */
  function FromRight(ds: seq<int>, doubled: bool): int {
    if |ds| == 0 then 0 else Weighted(ds[|ds| - 1], doubled) + FromRight(ds[..|ds| - 1], !doubled)
  }

  predicate LuhnValid(ds: seq<int>) { FromRight(ds, false) % 10 == 0 }

  function OnlyDigits(s: string): (r: string)
    ensures AllDigits(r)
  {
    if |s| == 0 then "" else
    var front := OnlyDigits(s[..|s| - 1]);
    if IsDigit(s[|s| - 1]) then front + [s[|s| - 1]] else front
  }

  function Values(s: string): (ds: seq<int>)
    requires AllDigits(s)
    ensures |ds| == |s| && Digital(ds) && forall i :: 0 <= i < |s| ==> ds[i] == Value(s[i])
  {
    seq(|s|, i requires 0 <= i < |s| => Value(s[i]))
  }

  method CheckCreditCard(value: string) returns (ok: bool)
    ensures ok <==> 13 <= |OnlyDigits(value)| <= 19 && LuhnValid(Values(OnlyDigits(value)))
  {
    var raw := OnlyDigits(value);
    if !(13 <= |raw| <= 19) {
      return false;
    }
    var checksum := Checksum(Values(raw));
    ok := checksum % 10 == 0;
  }

  /** The source walks from the left and doubles by the parity of the length. */
  method Checksum(digits: seq<int>) returns (checksum: int)
    ensures checksum == FromRight(digits, false)
  {
    checksum := 0;
    var parity := |digits| % 2;
    for i := 0 to |digits|
      invariant checksum == FromRight(digits[..i], (|digits| - i) % 2 == 1)
    {
      var d := digits[i];
      if i % 2 == parity {
        d := d * 2;
        if d > 9 {
          d := d - 9;
        }
      }
      checksum := checksum + d;
      NextDigit(digits, i);
    }
    assert digits[..|digits|] == digits;
  }

  lemma NextDigit(digits: seq<int>, i: nat)
    requires i < |digits|
    ensures FromRight(digits[..i + 1], (|digits| - i - 1) % 2 == 1) ==
            FromRight(digits[..i], (|digits| - i) % 2 == 1) + Weighted(digits[i], i % 2 == |digits| % 2)
  {
    assert digits[..i + 1][..i] == digits[..i];
  }

  lemma {:induction false} OneDigitMoves(ds: seq<int>, i: nat, y: int, doubled: bool)
    requires i < |ds|
    ensures FromRight(ds[i := y], doubled) - FromRight(ds, doubled) ==
            Weighted(y, doubled == ((|ds| - 1 - i) % 2 == 0)) - Weighted(ds[i], doubled == ((|ds| - 1 - i) % 2 == 0))
  {
    var front := ds[..|ds| - 1];
    if i == |ds| - 1 {
      assert ds[i := y][..|ds| - 1] == front;
    } else {
      assert ds[i := y][..|ds| - 1] == front[i := y];
      OneDigitMoves(front, i, y, !doubled);
    }
  }

  lemma OneDigitShows(ds: seq<int>, i: nat, y: int, doubled: bool)
    requires Digital(ds) && i < |ds| && 0 <= y <= 9 && y != ds[i]
    ensures FromRight(ds[i := y], doubled) % 10 != FromRight(ds, doubled) % 10
  {
    OneDigitMoves(ds, i, y, doubled);
    WeightsDiffer(ds[i], y, doubled == ((|ds| - 1 - i) % 2 == 0));
    SmallMove(FromRight(ds, doubled), FromRight(ds[i := y], doubled));
  }

  lemma SmallMove(a: int, b: int)
    ensures -10 < b - a < 10 ==> (a % 10 == b % 10 <==> a == b)
  {
  }

  lemma WeightsDiffer(x: int, y: int, doubled: bool)
    requires 0 <= x <= 9 && 0 <= y <= 9 && x != y
    ensures Weighted(x, doubled) != Weighted(y, doubled)
    ensures 0 <= Weighted(x, doubled) <= 9 && 0 <= Weighted(y, doubled) <= 9
  {
  }

  /** Any one digit of a valid number, of any length, changed: the number is invalid. */
  lemma LuhnCatchesOneChange(ds: seq<int>, i: nat, y: int)
    requires Digital(ds) && LuhnValid(ds) && i < |ds| && 0 <= y <= 9 && y != ds[i]
    ensures !LuhnValid(ds[i := y])
  {
    OneDigitShows(ds, i, y, false);
  }

  lemma SwapMoves(ds: seq<int>, i: nat, doubled: bool)
    requires i + 1 < |ds|
    ensures var b := doubled == ((|ds| - 1 - i) % 2 == 0);
      FromRight(Swapped(ds, i), doubled) - FromRight(ds, doubled) ==
      Weighted(ds[i + 1], b) - Weighted(ds[i], b) + Weighted(ds[i], !b) - Weighted(ds[i + 1], !b)
  {
    var one := ds[i := ds[i + 1]];
    assert Swapped(ds, i) == one[i + 1 := ds[i]];
    OneDigitMoves(ds, i, ds[i + 1], doubled);
    OneDigitMoves(one, i + 1, ds[i], doubled);
  }

  predicate NineZero(x: int, y: int) { (x == 0 && y == 9) || (x == 9 && y == 0) }

  lemma OneSwapOfDigits(ds: seq<int>, i: nat, doubled: bool)
    requires Digital(ds) && i + 1 < |ds|
    ensures FromRight(Swapped(ds, i), doubled) % 10 == FromRight(ds, doubled) % 10 <==>
            ds[i] == ds[i + 1] || NineZero(ds[i], ds[i + 1])
  {
    SwapMoves(ds, i, doubled);
    SwapWeights(ds[i], ds[i + 1]);
    SwapWeights(ds[i + 1], ds[i]);
    SmallMove(FromRight(ds, doubled), FromRight(Swapped(ds, i), doubled));
  }

  lemma SwapWeights(x: int, y: int)
    requires 0 <= x <= 9 && 0 <= y <= 9
    ensures var move := Weighted(y, true) - Weighted(x, true) + x - y;
      -10 < move < 10 && (move == 0 <==> x == y || NineZero(x, y))
  {
  }

  /** Two different neighbours exchanged: the number is invalid unless they are 0 and 9, and then never. */
  lemma LuhnCatchesSwaps(ds: seq<int>, i: nat)
    requires Digital(ds) && LuhnValid(ds) && i + 1 < |ds|
    ensures LuhnValid(Swapped(ds, i)) <==> ds[i] == ds[i + 1] || NineZero(ds[i], ds[i + 1])
  {
    OneSwapOfDigits(ds, i, false);
  }

  // ---- Spanish identifiers -------------------------------------------------

  const NifLetters := "TRWAGMYFPDXBNJZSQVHLCKE"

  predicate NifShape(raw: string) { |raw| == 9 && AllDigits(raw[..8]) && IsUpper(raw[8]) }

  predicate CheckNif(raw: string) {
    NifShape(raw) && raw[8] == NifLetters[ToInt(raw[..8]) % 23]
  }

  lemma NifRemainder(raw: string)
    requires NifShape(raw)
    ensures CheckNif(raw) <==> raw[8] == NifLetters[Remainder(23, raw[..8])]
  {
    DigitsAreNumeric(raw[..8]);
    RemainderOfNumber(23, raw[..8]);
  }

  lemma LettersDiffer(i: nat, j: nat)
    requires i < 23 && j < 23 && i != j
    ensures NifLetters[i] != NifLetters[j]
  {
  }

  /** No valid NIF stays valid when one digit, or the letter, is changed. */
  lemma NifCatchesOneChange(raw: string, i: nat, c: char)
    requires CheckNif(raw) && i < 9 && c != raw[i] && SameKind(c, raw[i])
    ensures NifShape(raw[i := c]) && !CheckNif(raw[i := c])
  {
    var t := raw[i := c];
    NifRemainder(raw);
    NifRemainder(t);
    if i < 8 {
      assert t[..8] == raw[..8][i := c];
      OneChangeShows(23, raw[..8], i, c);
      LettersDiffer(Remainder(23, raw[..8]), Remainder(23, t[..8]));
    } else {
      assert t[..8] == raw[..8];
    }
  }

  /** Nor when two different neighbouring digits are exchanged. */
  lemma NifCatchesSwaps(raw: string, i: nat)
    requires CheckNif(raw) && i < 7 && raw[i] != raw[i + 1]
    ensures !CheckNif(Swapped(raw, i))
  {
    var t := Swapped(raw, i);
    assert t[..8] == Swapped(raw[..8], i);
    OneSwapShows(23, raw[..8], i);
    NifRemainder(raw);
    if NifShape(t) {
      NifRemainder(t);
      LettersDiffer(Remainder(23, raw[..8]), Remainder(23, t[..8]));
    }
  }

  predicate NieShape(raw: string) {
    |raw| == 9 && 'X' <= raw[0] <= 'Z' && AllDigits(raw[1..8]) && IsUpper(raw[8])
  }

  function InitialDigit(c: char): char
    requires 'X' <= c <= 'Z'
  {
    DigitChar(c as int - 'X' as int)
  }

  predicate CheckNie(raw: string) {
    NieShape(raw) && raw[8] == NifLetters[ToInt([InitialDigit(raw[0])] + raw[1..8]) % 23]
  }

  /** A NIE is valid iff it is a valid NIF once X, Y or Z is read as 0, 1 or 2. */
  lemma NieIsNif(raw: string)
    requires NieShape(raw)
    ensures CheckNie(raw) <==> CheckNif(raw[0 := InitialDigit(raw[0])])
  {
    assert raw[0 := InitialDigit(raw[0])][..8] == [InitialDigit(raw[0])] + raw[1..8];
  }

  /** So no one change of its initial, a digit or the letter goes unnoticed either. */
  lemma NieCatchesOneChange(raw: string, i: nat, c: char)
    requires CheckNie(raw) && i < 9 && c != raw[i] && NieShape(raw[i := c])
    ensures !CheckNie(raw[i := c])
  {
    var t := raw[i := c];
    NieIsNif(raw);
    NieIsNif(t);
    var n := raw[0 := InitialDigit(raw[0])];
    if 0 < i < 8 {
      assert raw[1..8][i - 1] == raw[i] && t[1..8][i - 1] == c;
    }
    var d := if i == 0 then InitialDigit(c) else c;
    assert n[i := d] == t[0 := InitialDigit(t[0])];
    NifCatchesOneChange(n, i, d);
  }

  /** The letters a CIF starts with: A to W without I, O and T. */
  predicate CifInitial(c: char) { 'A' <= c <= 'W' && c != 'I' && c != 'O' && c != 'T' }

  /** Those that call for a control letter: P, Q, R, S, N and W. */
  predicate AlphaInitial(c: char) { 'P' <= c <= 'S' || c == 'N' || c == 'W' }

  /** J for zero, then A to I. */
  function ControlLetter(d: int): char
    requires 0 <= d < 10
  {
    if d == 0 then 'J' else ('A' as int + d - 1) as char
  }

  predicate CifShape(raw: string) {
    |raw| == 9 && CifInitial(raw[0]) && AllDigits(raw[1..8]) && ('A' <= raw[8] <= 'J' || IsDigit(raw[8]))
  }

  /** The digits in the even places, counted from zero, doubled; the others as they are. */
  function CifTotal(ds: seq<int>): int
    requires |ds| == 7
  {
    Weighted(ds[0], true) + Weighted(ds[2], true) + Weighted(ds[4], true) + Weighted(ds[6], true) + ds[1] + ds[3] +
        ds[5]
  }

  function ControlDigit(ds: seq<int>): (d: int)
    requires |ds| == 7
    ensures 0 <= d < 10
  {
    (10 - CifTotal(ds) % 10) % 10
  }

  predicate CheckCif(raw: string) {
    && CifShape(raw)
    && ControlFits(raw[0], raw[8], ControlDigit(Values(raw[1..8])))
  }

  /** The initial says which forms of the control digit may stand at the end. */
  predicate ControlFits(initial: char, c: char, control: int)
    requires 0 <= control < 10
  {
    if AlphaInitial(initial) then c == ControlLetter(control)
    else c == DigitChar(control) || c == ControlLetter(control)
  }

  lemma CifIsFromRight(ds: seq<int>)
    requires |ds| == 7
    ensures CifTotal(ds) == FromRight(ds, true)
  {
    assert FromRight(ds[..1], true) == Weighted(ds[0], true);
    assert ds[..2][..1] == ds[..1] && ds[..3][..2] == ds[..2] && ds[..4][..3] == ds[..3];
    assert ds[..5][..4] == ds[..4] && ds[..6][..5] == ds[..5];
    assert FromRight(ds[..2], false) == ds[1] + FromRight(ds[..1], true);
    assert FromRight(ds[..3], true) == Weighted(ds[2], true) + FromRight(ds[..2], false);
    assert FromRight(ds[..4], false) == ds[3] + FromRight(ds[..3], true);
    assert FromRight(ds[..5], true) == Weighted(ds[4], true) + FromRight(ds[..4], false);
    assert FromRight(ds[..6], false) == ds[5] + FromRight(ds[..5], true);
  }

  /** A control character fits one control digit only, in either form. */
  lemma ControlIsUnique(initial: char, c: char, d: int, e: int)
    requires 0 <= d < 10 && 0 <= e < 10 && ControlFits(initial, c, d) && ControlFits(initial, c, e)
    ensures d == e
  {
  }

  lemma SameDigit(ds: seq<int>, es: seq<int>)
    requires |ds| == |es| == 7
    ensures ControlDigit(ds) == ControlDigit(es) <==> CifTotal(ds) % 10 == CifTotal(es) % 10
  {
  }

  /** With initial and control character kept, only the total modulo ten matters. */
  lemma SameControl(raw: string, t: string)
    requires CheckCif(raw) && |t| == 9 && t[0] == raw[0] && t[8] == raw[8] && AllDigits(t[1..8])
    ensures CheckCif(t) <==> CifTotal(Values(t[1..8])) % 10 == CifTotal(Values(raw[1..8])) % 10
  {
    var ds, es := Values(raw[1..8]), Values(t[1..8]);
    SameDigit(ds, es);
    if CheckCif(t) {
      ControlIsUnique(raw[0], raw[8], ControlDigit(ds), ControlDigit(es));
    }
  }

  /** One digit of the seven-digit body changed always invalidates a CIF. */
  lemma CifCatchesOneChange(raw: string, i: nat, c: char)
    requires CheckCif(raw) && 1 <= i < 8 && IsDigit(c) && c != raw[i]
    ensures !CheckCif(raw[i := c])
  {
    var body, t := raw[1..8], raw[i := c];
    assert t[1..8] == body[i - 1 := c];
    assert body[i - 1] == raw[i];
    SameControl(raw, t);
    BodyChange(body, i - 1, c);
  }

  lemma BodyChange(body: string, i: nat, c: char)
    requires |body| == 7 && AllDigits(body) && i < 7 && IsDigit(c) && c != body[i]
    ensures AllDigits(body[i := c]) && CifTotal(Values(body[i := c])) % 10 != CifTotal(Values(body)) % 10
  {
    TotalChange(Values(body), i, Value(c), Values(body[i := c]));
  }

  lemma TotalChange(ds: seq<int>, i: nat, y: int, es: seq<int>)
    requires |ds| == 7 && Digital(ds) && i < 7 && 0 <= y <= 9 && y != ds[i] && es == ds[i := y]
    ensures CifTotal(es) % 10 != CifTotal(ds) % 10
  {
    CifIsFromRight(ds);
    CifIsFromRight(es);
    OneDigitShows(ds, i, y, true);
  }

  /** Two neighbouring body digits exchanged leave a CIF valid exactly when they are equal, or 0 and 9. */
  lemma CifCatchesSwaps(raw: string, i: nat)
    requires CheckCif(raw) && i + 1 < 7
    ensures CheckCif(Swapped(raw, i + 1)) <==>
            raw[1..8][i] == raw[1..8][i + 1] || NineZero(Value(raw[1..8][i]), Value(raw[1..8][i + 1]))
  {
    var body, t := raw[1..8], Swapped(raw, i + 1);
    SwapWithin(raw, i);
    SameControl(raw, t);
    BodySwap(body, i);
  }

  lemma SwapWithin<T>(s: seq<T>, i: nat)
    requires 8 <= |s| && i + 1 < 7
    ensures Swapped(s, i + 1)[1..8] == Swapped(s[1..8], i)
  {
    var t, body := Swapped(s, i + 1)[1..8], Swapped(s[1..8], i);
    forall k | 0 <= k < 7 ensures t[k] == body[k] {
      SwappedAt(s, i + 1, k + 1);
      SwappedAt(s[1..8], i, k);
    }
  }

  lemma BodySwap(body: string, i: nat)
    requires |body| == 7 && AllDigits(body) && i + 1 < 7
    ensures AllDigits(Swapped(body, i))
    ensures CifTotal(Values(Swapped(body, i))) % 10 == CifTotal(Values(body)) % 10 <==>
            body[i] == body[i + 1] || NineZero(Value(body[i]), Value(body[i + 1]))
  {
    TotalSwap(Values(body), i, Values(Swapped(body, i)));
  }

  lemma TotalSwap(ds: seq<int>, i: nat, es: seq<int>)
    requires |ds| == 7 && Digital(ds) && i + 1 < 7 && es == Swapped(ds, i)
    ensures CifTotal(es) % 10 == CifTotal(ds) % 10 <==> ds[i] == ds[i + 1] || NineZero(ds[i], ds[i + 1])
  {
    CifIsFromRight(ds);
    CifIsFromRight(es);
    OneSwapOfDigits(ds, i, true);
  }
}
