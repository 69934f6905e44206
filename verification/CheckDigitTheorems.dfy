/** What the check-digit validators accept, told by symbols, places and running sums. */
module CheckDigitTheorems {
  import opened Collections
  import opened CheckDigits

  // ---- Numbers -------------------------------------------------------------

  const Symbols := "0123456789ABCDEFGHIJKLMNOPQRSTUVWXYZ"

  /** The worth of a symbol is its place in the row of digits and letters. */
  predicate Worth(c: char, v: int) { 0 <= v < 36 && Symbols[v] == c }

  lemma WorthIsValue(c: char, v: int)
    requires Worth(c, v)
    ensures IsDigit(c) || IsUpper(c)
    ensures Value(c) == v && (IsDigit(c) <==> v < 10)
  {
  }

  lemma HasWorth(c: char)
    requires IsDigit(c) || IsUpper(c)
    ensures Worth(c, Value(c))
  {
  }

  /** The numbers read after each symbol of a string: a digit adds one place, a letter two. */
  ghost predicate Read(s: string, values: seq<int>) {
    && |values| == |s| + 1 && values[0] == 0
    && forall k :: 0 <= k < |s| ==> Reads(values[k], s[k], values[k + 1])
  }

  ghost predicate Reads(before: int, c: char, after: int) {
    exists v :: Worth(c, v) && after == before * (if v < 10 then 10 else 100) + v
  }

  lemma OneMoreSymbol(before: int, c: char, after: int)
    requires Reads(before, c, after)
    ensures IsDigit(c) || IsUpper(c)
    ensures after == Shift(before, c) + Value(c)
  {
    var v :| Worth(c, v) && after == before * (if v < 10 then 10 else 100) + v;
    WorthIsValue(c, v);
  }

  lemma NextReading(s: string, n: nat, m: nat, before: int, after: int)
    requires m == n + 1 <= |s| && AllAlnum(s[..n]) && Reading(s[..n]) == before && Reads(before, s[n], after)
    ensures AllAlnum(s[..m]) && Reading(s[..m]) == after
  {
    OneMoreSymbol(before, s[n], after);
    TakeFront(s, n);
    TakeNext(s, n);
  }

  lemma ReadIsReading(s: string, values: seq<int>)
    requires Read(s, values)
    ensures AllAlnum(s) && Reading(s) == values[|s|]
  {
    for n := 0 to |s|
      invariant AllAlnum(s[..n]) && Reading(s[..n]) == values[n]
    {
      NextReading(s, n, n + 1, values[n], values[n + 1]);
    }
    TakeAll(s);
  }

  /** Every string of digits and capitals can be read. */
  lemma CanRead(s: string) returns (values: seq<int>)
    requires AllAlnum(s)
    ensures Read(s, values)
  {
    values := [0];
    for k := 0 to |s|
      invariant |values| == k + 1 && values[0] == 0
      invariant forall i :: 0 <= i < k ==> Reads(values[i], s[i], values[i + 1])
    {
      HasWorth(s[k]);
      var next := values[k] * (if Value(s[k]) < 10 then 10 else 100) + Value(s[k]);
      assert Reads(values[k], s[k], next);
      values := values + [next];
    }
  }

  // ---- IBAN ----------------------------------------------------------------

  /** An IBAN is valid iff it is a country code of two letters, two digits and ten to thirty more symbols,
      and the number read from it, those more symbols first, leaves one when divided by 97. */
  lemma IbanIs(country: string, pair: string, rest: string, values: seq<int>)
    requires Read(rest + country + pair, values) && |country| == |pair| == 2
    ensures CheckIban(country + pair + rest) <==>
              && (exists i, j :: 10 <= i < 36 && 10 <= j < 36 && country == [Symbols[i], Symbols[j]])
              && (exists i, j :: 0 <= i < 10 && 0 <= j < 10 && pair == [Symbols[i], Symbols[j]])
              && 10 <= |rest| <= 30 && values[|rest| + 4] % 97 == 1
  {
    var s, all := country + pair + rest, rest + country + pair;
    assert s[4..] == rest && s[..4] == country + pair && rest + (country + pair) == all;
    ReadIsReading(all, values);
    NumberIsReading(all);
    AlnumAround(country, pair, rest);
    Capitals(country);
    Digits(pair);
  }

  lemma AlnumAround(country: string, pair: string, rest: string)
    requires AllAlnum(rest + country + pair)
    ensures AllAlnum(country + pair + rest)
  {
    var all := rest + country + pair;
    forall i | 0 <= i < |country + pair + rest|
      ensures IsDigit((country + pair + rest)[i]) || IsUpper((country + pair + rest)[i])
    {
      assert (country + pair + rest)[i] ==
             all[if i < |country| + |pair| then |rest| + i else i - |country| - |pair|];
    }
  }

  lemma Capitals(s: string)
    requires |s| == 2
    ensures IsUpper(s[0]) && IsUpper(s[1]) <==>
            exists i, j :: 10 <= i < 36 && 10 <= j < 36 && s == [Symbols[i], Symbols[j]]
  {
    if IsUpper(s[0]) && IsUpper(s[1]) {
      HasWorth(s[0]);
      HasWorth(s[1]);
      assert s == [Symbols[Value(s[0])], Symbols[Value(s[1])]];
    }
  }

  lemma Digits(s: string)
    requires |s| == 2
    ensures IsDigit(s[0]) && IsDigit(s[1]) <==>
            exists i, j :: 0 <= i < 10 && 0 <= j < 10 && s == [Symbols[i], Symbols[j]]
  {
    if IsDigit(s[0]) && IsDigit(s[1]) {
      HasWorth(s[0]);
      HasWorth(s[1]);
      assert s == [Symbols[Value(s[0])], Symbols[Value(s[1])]];
    }
  }

  // ---- Luhn ----------------------------------------------------------------

  /** What a digit adds: itself, or the digits of its double together. */
  function Adds(d: int, doubled: bool): int {
    if doubled then 2 * d / 10 + 2 * d % 10 else d
  }

  /** Running sums from the left, every second digit from the last one on doubled, or every second one
      from the last but one, as told. */
  ghost predicate Sums(ds: seq<int>, lastDoubled: bool, sums: seq<int>) {
    && |sums| == |ds| + 1 && sums[0] == 0
    && forall k :: 0 <= k < |ds| ==>
        sums[k + 1] == sums[k] + Adds(ds[k], WhetherDoubled(|ds| - k, lastDoubled))
  }

  /** Whether the `n`-th digit from the right is doubled, when every second one is. */
  predicate WhetherDoubled(n: nat, last: bool) { if n % 2 == 1 then last else !last }

  lemma AddsIsWeight(d: int, doubled: bool)
    requires 0 <= d <= 9
    ensures Adds(d, doubled) == Weighted(d, doubled)
  {
  }

  lemma NextSum(ds: seq<int>, n: nat, m: nat, doubled: bool, sum: int)
    requires Digital(ds) && m == n + 1 <= |ds| && FromRight(ds[..n], !doubled) == sum
    ensures FromRight(ds[..m], doubled) == sum + Adds(ds[n], doubled)
  {
    TakeFront(ds, n);
    AddsIsWeight(ds[n], doubled);
  }

  lemma NextCount(n: nat, m: nat, last: bool)
    requires m == n + 1
    ensures WhetherDoubled(n, last) == !WhetherDoubled(m, last)
  {
  }

  lemma SumsAre(ds: seq<int>, lastDoubled: bool, sums: seq<int>)
    requires Digital(ds) && Sums(ds, lastDoubled, sums)
    ensures FromRight(ds, lastDoubled) == sums[|ds|]
  {
    var doubled := WhetherDoubled(|ds|, lastDoubled);
    for n := 0 to |ds|
      invariant doubled == WhetherDoubled(|ds| - n, lastDoubled)
      invariant FromRight(ds[..n], !doubled) == sums[n]
    {
      NextSum(ds, n, n + 1, doubled, sums[n]);
      NextCount(|ds| - (n + 1), |ds| - n, lastDoubled);
      doubled := !doubled;
    }
    TakeAll(ds);
  }

  /** `digits` is what is left of `s` without everything that is no digit. */
  ghost predicate DigitsOf(s: string, digits: string, at: seq<nat>) {
    && |at| == |digits| && Picked(at, |s|, (i: nat) => i < |s| && '0' <= s[i] <= '9')
    && forall k :: 0 <= k < |at| ==> digits[k] == s[at[k]]
  }

  lemma OnlyDigitsAre(s: string) returns (at: seq<nat>)
    ensures DigitsOf(s, OnlyDigits(s), at)
  {
    at := [];
    for n := 0 to |s|
      invariant |at| == |OnlyDigits(s[..n])| && Picked(at, n, (i: nat) => i < |s| && '0' <= s[i] <= '9')
      invariant forall k :: 0 <= k < |at| ==> OnlyDigits(s[..n])[k] == s[at[k]]
    {
      TakeFront(s, n);
      PickNext(at, n, (i: nat) => i < |s| && '0' <= s[i] <= '9');
      if IsDigit(s[n]) {
        at := at + [n];
      }
    }
    TakeAll(s);
  }

  /** A card number is valid iff it has thirteen to nineteen digits and their Luhn sum ends in zero. */
  lemma CardIs(value: string, sums: seq<int>) returns (at: seq<nat>)
    requires Sums(Values(OnlyDigits(value)), false, sums)
    ensures DigitsOf(value, OnlyDigits(value), at)
    ensures forall k :: 0 <= k < |OnlyDigits(value)| ==> Worth(OnlyDigits(value)[k], Values(OnlyDigits(value))[k])
    ensures LuhnValid(Values(OnlyDigits(value))) <==> sums[|at|] % 10 == 0
  {
    at := OnlyDigitsAre(value);
    SumsAre(Values(OnlyDigits(value)), false, sums);
    forall k | 0 <= k < |OnlyDigits(value)| ensures Worth(OnlyDigits(value)[k], Values(OnlyDigits(value))[k]) {
      HasWorth(OnlyDigits(value)[k]);
    }
  }

  // ---- Spanish identifiers -------------------------------------------------

  /** The letter the Interior Ministry assigns to a remainder. */
  function AssignedLetter(r: int): char {
    match r
    case 0 => 'T' case 1 => 'R' case 2 => 'W' case 3 => 'A' case 4 => 'G' case 5 => 'M' case 6 => 'Y' case 7 => 'F'
    case 8 => 'P' case 9 => 'D' case 10 => 'X' case 11 => 'B' case 12 => 'N' case 13 => 'J' case 14 => 'Z'
    case 15 => 'S' case 16 => 'Q' case 17 => 'V' case 18 => 'H' case 19 => 'L' case 20 => 'C' case 21 => 'K'
    case _ => 'E'
  }

  lemma LettersAre(r: int)
    requires 0 <= r < 23
    ensures NifLetters[r] == AssignedLetter(r)
  {
  }

  lemma NumberReads(number: string, values: seq<int>)
    requires Read(number, values) && AllDigits(number)
    ensures ToInt(number) == values[|number|]
  {
    DigitsAreNumeric(number);
    NumberIsReading(number);
    ReadIsReading(number, values);
  }

  predicate SomeDigits(s: string, n: nat) { |s| == n && forall k :: 0 <= k < n ==> '0' <= s[k] <= '9' }

  /** A NIF is valid iff it is eight digits and the letter of the number they read, modulo 23. */
  lemma NifIs(number: string, letter: string, values: seq<int>)
    requires Read(number, values) && |letter| == 1
    ensures CheckNif(number + letter) <==> SomeDigits(number, 8) && letter[0] == AssignedLetter(values[8] % 23)
  {
    var raw := number + letter;
    if |number| == 8 {
      assert raw[..8] == number && raw[8] == letter[0];
      if AllDigits(number) {
        NumberReads(number, values);
        LettersAre(values[8] % 23);
      }
    }
  }

  /** A NIE is valid iff it is X, Y or Z, seven digits and a letter, which is that of the number they
      read when the initial counts as 0, 1 or 2. */
  lemma NieIs(initial: char, number: string, letter: string, first: string, values: seq<int>)
    requires first == (if initial == 'X' then "0" else if initial == 'Y' then "1" else "2")
    requires Read(first + number, values) && |letter| == 1
    ensures CheckNie([initial] + number + letter) <==>
              SomeDigits(number, 7) && initial in "XYZ" && letter[0] == AssignedLetter(values[8] % 23)
  {
    var raw := [initial] + number + letter;
    if |number| == 7 {
      assert raw[1..8] == number && raw[0] == initial && raw[8] == letter[0];
      if AllDigits(number) && 'X' <= initial <= 'Z' {
        assert [InitialDigit(initial)] == first;
        NumberReads(first + number, values);
        LettersAre(values[8] % 23);
      }
    }
  }

  const ControlLetters := "JABCDEFGHI"

  lemma ControlIs(d: int)
    requires 0 <= d < 10
    ensures ControlLetter(d) == ControlLetters[d] && DigitChar(d) == Symbols[d]
  {
  }

  lemma Initials(c: char)
    ensures CifInitial(c) <==> c in "ABCDEFGHJKLMNPQRSUVW"
    ensures AlphaInitial(c) <==> c in "PQRSNW"
  {
  }

  lemma BodyIs(raw: string, ds: seq<int>)
    requires |raw| == 9 && |ds| == 7 && forall k :: 0 <= k < 7 ==> 0 <= ds[k] < 10 && Worth(raw[k + 1], ds[k])
    ensures AllDigits(raw[1..8]) && Values(raw[1..8]) == ds
  {
    forall k | 0 <= k < 7 ensures IsDigit(raw[1..8][k]) && Value(raw[1..8][k]) == ds[k] {
      WorthIsValue(raw[k + 1], ds[k]);
    }
  }

  predicate Completes(sum: int, d: int) { 0 <= d < 10 && (sum + d) % 10 == 0 }

  predicate Control(initial: char, c: char, d: int)
    requires 0 <= d < 10
  {
    c == ControlLetters[d] || (c == Symbols[d] && initial !in "PQRSNW")
  }

  /** A CIF is valid iff it is a letter other than I, Ñ, O, T and those after W, seven digits and a
      control: for initials P, Q, R, S, N and W the letter, for others the letter or the digit, of the one
      number below ten that makes the Luhn sum of the seven digits, the last one doubled, end in zero. */
  lemma CifIs(raw: string, ds: seq<int>, sums: seq<int>)
    requires |raw| == 9 && |ds| == 7 && (forall k :: 0 <= k < 7 ==> 0 <= ds[k] < 10 && Worth(raw[k + 1], ds[k]))
    requires Sums(ds, true, sums)
    ensures CheckCif(raw) <==>
              && raw[0] in "ABCDEFGHJKLMNPQRSUVW"
              && exists d :: Completes(sums[7], d) && Control(raw[0], raw[8], d)
  {
    SumsAre(ds, true, sums);
    ControlCompletes(ds, sums[7]);
    CifControl(raw, ds, ControlDigit(ds));
  }

  lemma CifControl(raw: string, ds: seq<int>, d: int)
    requires |raw| == 9 && |ds| == 7 && (forall k :: 0 <= k < 7 ==> 0 <= ds[k] < 10 && Worth(raw[k + 1], ds[k]))
    requires d == ControlDigit(ds)
    ensures CheckCif(raw) <==> raw[0] in "ABCDEFGHJKLMNPQRSUVW" && Control(raw[0], raw[8], d)
  {
    BodyIs(raw, ds);
    ControlFitsIff(raw[0], raw[8], d);
  }

  lemma ControlCompletes(ds: seq<int>, sum: int)
    requires |ds| == 7 && sum == FromRight(ds, true)
    ensures forall e :: Completes(sum, e) <==> e == ControlDigit(ds)
  {
    CifIsFromRight(ds);
    OneCompletes(sum, ControlDigit(ds));
  }

  lemma OneCompletes(sum: int, d: int)
    requires d == (10 - sum % 10) % 10
    ensures forall e :: Completes(sum, e) <==> e == d
  {
  }

  /** Fitting the control implies that the last character is one a CIF may end with. */
  lemma ControlFitsIff(initial: char, c: char, d: int)
    requires 0 <= d < 10
    ensures CifInitial(initial) && ('A' <= c <= 'J' || IsDigit(c)) && ControlFits(initial, c, d) <==>
            initial in "ABCDEFGHJKLMNPQRSUVW" && Control(initial, c, d)
  {
    ControlIs(d);
    Initials(initial);
  }
}
