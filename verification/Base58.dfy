/** Base58: in-place radix conversion in buffers of estimated size. */
module Base58 {
  import opened Arith
  import opened Options
  import opened Radix

  // ---------------------------------------------------------------- the alphabet

  /** The alphanumeric characters except 0, I, O and l, in order. */
  function DigitChar(d: nat): char
    requires d < 58
  {
    if d < 9 then ('1' as int + d) as char
    else if d < 17 then ('A' as int + (d - 9)) as char
    else if d < 22 then ('J' as int + (d - 17)) as char
    else if d < 33 then ('P' as int + (d - 22)) as char
    else if d < 44 then ('a' as int + (d - 33)) as char
    else ('m' as int + (d - 44)) as char
  }

  /** The reverse table: -1 for a character that is not in the alphabet. */
  function CharDigit(c: char): int {
    if '1' <= c <= '9' then c as int - '1' as int
    else if 'A' <= c <= 'H' then c as int - 'A' as int + 9
    else if 'J' <= c <= 'N' then c as int - 'J' as int + 17
    else if 'P' <= c <= 'Z' then c as int - 'P' as int + 22
    else if 'a' <= c <= 'k' then c as int - 'a' as int + 33
    else if 'm' <= c <= 'z' then c as int - 'm' as int + 44
    else -1
  }

  predicate IsSpace(c: char) {
    c == ' ' || c == '\t' || c == '\n' || c == '\r' || c as int == 11 || c as int == 12
  }

  predicate IsOne(c: char) { c == '1' }

  predicate IsText(c: char) { !IsSpace(c) }

  predicate Valid(c: char) { CharDigit(c) >= 0 }

  /** The two tables are inverse to each other. */
  lemma AlphabetInverse(c: char, d: nat)
    ensures d < 58 ==> CharDigit(DigitChar(d)) == d && !IsSpace(DigitChar(d)) && DigitChar(d) != '\0'
    ensures d < 58 ==> (DigitChar(d) == '1' <==> d == 0)
    ensures Valid(c) ==> CharDigit(c) < 58 && DigitChar(CharDigit(c)) == c && !IsSpace(c) && c != '\0'
  {}

  function Chars(d: seq<nat>): string
    requires Digits(d, 58)
  {
    seq(|d|, i requires 0 <= i < |d| => DigitChar(d[i]))
  }

  predicate AllValid(s: string) {
    forall i | 0 <= i < |s| :: Valid(s[i])
  }

  function Indices(s: string): (d: seq<nat>)
    requires AllValid(s)
    ensures |d| == |s| && Digits(d, 58)
  {
    seq(|s|, i requires 0 <= i < |s| => CharDigit(s[i]) as nat)
  }

  // ---------------------------------------------------------------- what is computed

  function LeadingZeros(s: seq<nat>): (z: nat)
    ensures z <= |s| && (forall i | 0 <= i < z :: s[i] == 0) && (z < |s| ==> s[z] != 0)
  {
    if s != [] && s[0] == 0 then 1 + LeadingZeros(s[1..]) else 0
  }

  /** One '1' for every leading zero byte, then the number in base 58. */
  function Encode(input: seq<nat>): string {
    var z := LeadingZeros(input);
    ToDigitsIs(Num(input[z..], 256), 58);
    seq(z, _ => '1') + Chars(ToDigits(Num(input[z..], 256), 58))
  }

  /** How many characters of `s` from the front satisfy `p`. */
  function Span(s: string, p: char -> bool): (n: nat)
    ensures n <= |s| && (forall i | 0 <= i < n :: p(s[i])) && (n < |s| ==> !p(s[n]))
  {
    if s != [] && p(s[0]) then 1 + Span(s[1..], p) else 0
  }

  /** What remains to be decoded once the leading ones are counted. */
  function DecodeRest(rest: string, zeroes: nat, maxLen: int): Option<seq<nat>> {
    var body := rest[..Span(rest, IsText)];
    var tail := rest[|body|..];
    if !AllValid(body) || Span(tail, IsSpace) < |tail| then None
    else
      var d := ToDigits(Num(Indices(body), 58), 256);
      if body != [] && zeroes + |d| > maxLen then None else Some(seq(zeroes, _ => 0) + d)
  }

  /** Spaces around the text are skipped. A negative `maxLen` only matters once there is a digit. */
  function Decode(s: string, maxLen: int): Option<seq<nat>> {
    if '\0' in s then None else Stripped(s[Span(s, IsSpace)..], maxLen)
  }

  /** What follows the leading spaces: leading ones are zero bytes. */
  function Stripped(t: string, maxLen: int): Option<seq<nat>> {
    var z := Span(t, IsOne);
    if z > 0 && z > maxLen then None else DecodeRest(t[z..], z, maxLen)
  }

  // ---------------------------------------------------------------- the buffer estimates

  lemma Squared(b: nat, n: nat, x: nat)
    requires Pow(b, n) == x
    ensures Pow(b, 2 * n) == x * x
  {
    PowAdd(b, n, n);
  }

  lemma PowerOf58()
    ensures Pow(58, 71)
        == 159730386663078066345306447337161584696769904898410078913243029577507397293846405390982563136983769384625594118558891106107392
  {
    assert Pow(58, 17) == 951208868148684143308060622848;
    Squared(58, 17, 951208868148684143308060622848);
    Squared(58, 34, 904798310844700775313327215140493940623303545877497699631104);
    PowAdd(58, 68, 3);
    assert Pow(58, 3) == 195112;
  }

  lemma PowerOf256()
    ensures Pow(256, 52)
        == 169230328010303641331690318856389386196071598838855992136870091590247882556495704531248437872567112920983350278405979725889536
  {
    assert Pow(256, 13) == 20282409603651670423947251286016;
    Squared(256, 13, 20282409603651670423947251286016);
    Squared(256, 26, 411376139330301510538742295639337626245683966408394965837152256);
  }

  lemma PowerFacts()
    ensures Pow(256, 8) <= Pow(58, 11)
    ensures Pow(58, 71) <= Pow(256, 52)
  {
    assert Pow(58, 11) == 24986644000165537792;
    assert Pow(256, 8) == 18446744073709551616;
    PowerOf58();
    PowerOf256();
  }

  /** `n * 138 / 100 + 1` base-58 digits hold every number of `n` bytes. */
  lemma EncodeFits(n: nat)
    ensures Pow(256, n) <= Pow(58, n * 138 / 100 + 1)
  {
    hide Pow;
    PowerFacts();
    PowCompare(256, 58, 8, 11, n, n * 138 / 100 + 1);
  }

  /** `n * 733 / 1000 + 1` bytes hold every number of `n` base-58 digits. */
  lemma DecodeFits(n: nat)
    ensures Pow(58, n) <= Pow(256, n * 733 / 1000 + 1)
  {
    hide Pow;
    PowerFacts();
    PowCompare(58, 256, 71, 52, n, n * 733 / 1000 + 1);
  }

  // ---------------------------------------------------------------- the conversion loop

  /** What a number becomes when it is multiplied and a digit is added. */
  function Image(mult: nat, v: nat, digit: nat): nat {
    mult * v + digit
  }

  /** The low `i` digits `low` with the carry above them make `total`. */
  ghost predicate Carried(low: nat, carry: nat, base: nat, i: nat, total: nat) {
    low + carry * Pow(base, i) == total
  }

  lemma CarriedStart(base: nat, digit: nat, mult: nat)
    ensures Carried(0, digit, base, 0, Image(mult, 0, digit))
  {}

  lemma CarriedStep(low: nat, carry: nat, base: nat, i: nat, mult: nat, v: nat, digit: nat, x: nat)
    requires base > 0 && Carried(low, carry, base, i, Image(mult, v, digit))
    ensures var c := Image(mult, x, carry);
      Carried(Mod(c, base) * Pow(base, i) + low, Div(c, base), base, i + 1, Image(mult, x * Pow(base, i) + v, digit))
  {
    var c, p := mult * x + carry, Pow(base, i);
    assert Pow(base, i + 1) == base * p;
    DivModIs(c, base);
    hide Pow;
    CarriedAlgebra(low, carry, base, mult, v, digit, x, p, c / base, c % base);
  }

  lemma CarriedAlgebra(low: int, carry: int, base: int, mult: int, v: int, digit: int, x: int, p: int, q: int, r: int)
    requires low + carry * p == mult * v + digit && mult * x + carry == q * base + r
    ensures (r * p + low) + q * (base * p) == mult * (x * p + v) + digit
  {
    Assoc(q, base, p);
    Distribute(q * base, r, p);
    Distribute(mult * x, carry, p);
    Assoc(mult, x, p);
    assert mult * (x * p + v) == mult * (x * p) + mult * v;
  }

  lemma CarriedNone(low: nat, base: nat, i: nat, total: nat)
    requires Carried(low, 0, base, i, total)
    ensures low == total
  {}

  lemma CarriedAtLeast(low: nat, carry: nat, base: nat, i: nat, total: nat)
    requires Carried(low, carry, base, i, total) && carry > 0
    ensures total >= Pow(base, i)
  {
    MulLe(1, carry, Pow(base, i));
  }

  lemma ImageGrows(mult: nat, v: nat, digit: nat)
    requires mult > 0
    ensures Image(mult, v, digit) >= v
  {
    MulLe(1, mult, v);
  }

  /** What the buffer must satisfy: digits, zeros above the given length, and no more zeros. */
  ghost predicate Holds(buf: seq<nat>, base: nat, length: nat, v: nat) {
    && Digits(buf, base) && length <= |buf|
    && (forall i | 0 <= i < |buf| - length :: buf[i] == 0)
    && Num(buf, base) == v && (length > 0 ==> v >= Pow(base, length - 1))
  }

  /** Applies "buf = buf * mult + digit". The carry is used up before the buffer is. */
  method MulAdd(buf: array<nat>, base: nat, mult: nat, digit: nat, length: nat, ghost v: nat) returns (newLength: nat)
    requires base >= 2 && mult >= 1 && Holds(buf[..], base, length, v)
    requires Image(mult, v, digit) < Pow(base, buf.Length)
    modifies buf
    ensures Holds(buf[..], base, newLength, Image(mult, v, digit))
  {
    hide Pow, Num, Carried, Image, Mod, Div;
    ghost var was, total := buf[..], Image(mult, v, digit);
    var n := buf.Length;
    var carry: nat := digit;
    var i := 0;
    assert buf[..][n..] == [] && was[n..] == [];
    NumEmpty(base);
    CarriedStart(base, digit, mult);
    while (carry != 0 || i < length) && i != n
      invariant 0 <= i <= n && Digits(buf[..], base)
      invariant Carried(Num(buf[..][n - i..], base), carry, base, i, Image(mult, Num(was[n - i..], base), digit))
      invariant forall j | 0 <= j < n - i :: buf[j] == was[j]
      invariant i > length ==> total >= Pow(base, i - 1)
      decreases n - i
    {
      var p := n - 1 - i;
      NumStep(was, p, base);
      CarriedStep(Num(buf[..][n - i..], base), carry, base, i, mult, Num(was[n - i..], base), digit, was[p]);
      if i >= length {
        NumSkip(was, n - i, base);
        CarriedAtLeast(Num(buf[..][n - i..], base), carry, base, i, total);
      }
      NumPut(buf[..], p, Mod(Image(mult, buf[p], carry), base), base);
      carry := Image(mult, buf[p], carry);
      buf[p] := Mod(carry, base);
      carry := Div(carry, base);
      i := i + 1;
    }
    NumSkip(was, n - i, base);
    NumSkip(buf[..], n - i, base);
    if carry > 0 {
      CarriedAtLeast(Num(buf[..][n - i..], base), carry, base, i, total);
      assert false;
    }
    CarriedNone(Num(buf[..][n - i..], base), base, i, total);
    ImageGrows(mult, v, digit);
    newLength := i;
  }

  lemma NumPut(s: seq<nat>, p: nat, x: nat, base: nat)
    requires p < |s|
    ensures Num(s[p := x][p..], base) == x * Pow(base, |s| - 1 - p) + Num(s[p + 1..], base)
  {
    assert s[p := x][p + 1..] == s[p + 1..];
    NumStep(s[p := x], p, base);
  }

  lemma NumEmpty(base: nat)
    ensures Num([], base) == 0
  {}

  lemma NumStep(s: seq<nat>, p: nat, base: nat)
    requires p < |s|
    ensures Num(s[p..], base) == s[p] * Pow(base, |s| - 1 - p) + Num(s[p + 1..], base)
  {
    assert s[p..][1..] == s[p + 1..];
  }

  // ---------------------------------------------------------------- encoding

  lemma {:induction false} LeadingZerosUnique(s: seq<nat>, z: nat)
    requires z <= |s| && (forall i | 0 <= i < z :: s[i] == 0) && (z < |s| ==> s[z] != 0)
    ensures LeadingZeros(s) == z
  {
    if z > 0 { LeadingZerosUnique(s[1..], z - 1); }
  }

  /** The next byte or digit fits into the buffer. */
  lemma NextFits(s: seq<nat>, i: nat, mult: nat, base: nat, size: nat)
    requires mult > 0 && Digits(s, mult) && i < |s| && Pow(mult, |s|) <= Pow(base, size)
    ensures Image(mult, Num(s[..i], mult), s[i]) == Num(s[..i + 1], mult) < Pow(base, size)
  {
    assert s[..i + 1] == s[..i] + [s[i]];
    NumSnoc(s[..i], s[i], mult);
    hide Pow, Num;
    NumBound(s[..i + 1], mult);
    PowMono(mult, i + 1, |s|);
  }

  lemma HoldsStart(buf: seq<nat>, base: nat)
    requires base > 0 && forall i | 0 <= i < |buf| :: buf[i] == 0
    ensures Holds(buf, base, 0, 0)
  {
    NumZeros(buf, base);
  }

  /** The significant part of the buffer is the numeral without leading zeros. */
  lemma HoldsDigits(buf: seq<nat>, base: nat, length: nat, v: nat)
    requires base >= 2 && Holds(buf, base, length, v)
    ensures buf[|buf| - length..] == ToDigits(v, base)
    ensures length > 0 ==> buf[|buf| - length] != 0
  {
    var d := buf[|buf| - length..];
    NumSkip(buf, |buf| - length, base);
    hide Pow, Num, ToDigits;
    if length > 0 && d[0] == 0 {
      NumSkip(d, 1, base);
      NumBound(d[1..], base);
      assert false;
    }
    DigitsUnique(d, base);
  }

  /** The base-58 digits of a byte string that does not start with zero. */
  method ConvertToBase58(rest: seq<nat>) returns (digits: seq<nat>)
    requires Digits(rest, 256)
    ensures digits == ToDigits(Num(rest, 256), 58)
  {
    hide Pow, Num, Image, Holds, ToDigits;
    var size := |rest| * 138 / 100 + 1;
    EncodeFits(|rest|);
    var b58 := new nat[size](_ => 0);
    HoldsStart(b58[..], 58);
    NumEmpty(256);
    var length: nat, i := 0, 0;
    assert rest[..0] == [];
    while i < |rest|
      invariant i <= |rest| && Holds(b58[..], 58, length, Num(rest[..i], 256))
    {
      NextFits(rest, i, 256, 58, size);
      length := MulAdd(b58, 58, 256, rest[i], length, Num(rest[..i], 256));
      i := i + 1;
    }
    assert rest[..i] == rest;
    HoldsLength(b58[..], 58, length, Num(rest, 256));
    var it := size - length;
    while it != size && b58[it] == 0
      invariant size - length <= it <= size && forall k | 0 <= k < it :: b58[k] == 0
      decreases size - it
    {
      it := it + 1;
    }
    SkippedDigits(b58[..], 58, it, Num(rest, 256));
    digits := b58[it..];
    assert digits == b58[..][it..];
  }

  method EncodeBase58(input: seq<nat>) returns (str: string)
    requires Digits(input, 256)
    ensures str == Encode(input)
  {
    hide Pow, Num, ToDigits;
    var zeroes := 0;
    while zeroes < |input| && input[zeroes] == 0
      invariant zeroes <= |input| && forall i | 0 <= i < zeroes :: input[i] == 0
    {
      zeroes := zeroes + 1;
    }
    LeadingZerosUnique(input, zeroes);
    var digits := ConvertToBase58(input[zeroes..]);
    ToDigitsIs(Num(input[zeroes..], 256), 58);
    str := seq(zeroes, _ => '1');
    var it := 0;
    while it < |digits|
      invariant it <= |digits| && str == seq(zeroes, _ => '1') + Chars(digits[..it])
    {
      assert digits[..it + 1] == digits[..it] + [digits[it]];
      str := str + [DigitChar(digits[it])];
      it := it + 1;
    }
    assert digits[..it] == digits;
  }

  /** Without its leading zeros the buffer is the numeral. */
  lemma SkippedDigits(buf: seq<nat>, base: nat, k: nat, v: nat)
    requires base >= 2 && Digits(buf, base) && Num(buf, base) == v && k <= |buf|
    requires (forall i | 0 <= i < k :: buf[i] == 0) && (k < |buf| ==> buf[k] != 0)
    ensures buf[k..] == ToDigits(v, base)
  {
    NumSkip(buf, k, base);
    DigitsUnique(buf[k..], base);
  }

  lemma HoldsLength(buf: seq<nat>, base: nat, length: nat, v: nat)
    requires Holds(buf, base, length, v)
    ensures length <= |buf| && Digits(buf, base) && Num(buf, base) == v
    ensures forall i | 0 <= i < |buf| - length :: buf[i] == 0
  {}

  // ---------------------------------------------------------------- decoding

  lemma {:induction false} SpanAtLeast(s: string, p: char -> bool, n: nat)
    requires n <= |s| && forall i | 0 <= i < n :: p(s[i])
    ensures Span(s, p) >= n
    ensures n < |s| && !p(s[n]) ==> Span(s, p) == n
    ensures n == |s| ==> Span(s, p) == n
    decreases n
  {
    if n > 0 { SpanAtLeast(s[1..], p, n - 1); }
  }

  /** More digits never make a shorter number. */
  lemma PrefixShorter(d: seq<nat>, i: nat)
    requires Digits(d, 58) && i <= |d|
    ensures |ToDigits(Num(d[..i], 58), 256)| <= |ToDigits(Num(d, 58), 256)|
  {
    NumPrefix(d, i, 58);
    DigitsMono(Num(d[..i], 58), Num(d, 58), 256);
  }

  lemma {:induction false} NumPrefix(d: seq<nat>, i: nat, b: nat)
    requires i <= |d| && b > 0
    ensures Num(d[..i], b) <= Num(d, b)
    decreases |d| - i
  {
    if i == |d| {
      assert d[..i] == d;
    } else {
      NumPrefix(d, i + 1, b);
      assert d[..i + 1] == d[..i] + [d[i]];
      NumSnoc(d[..i], d[i], b);
      MulLe(1, b, Num(d[..i], b));
    }
  }

  lemma DigitsMono(v: nat, w: nat, b: nat)
    requires b >= 2 && v <= w
    ensures |ToDigits(v, b)| <= |ToDigits(w, b)|
  {
    ToDigitsIs(v, b);
    ToDigitsIs(w, b);
    var d, e := ToDigits(v, b), ToDigits(w, b);
    hide Pow, Num, ToDigits;
    if |e| < |d| {
      NumLeading(d, b);
      NumBound(e, b);
      PowMono(b, |e|, |d| - 1);
      assert false;
    }
  }

  method DecodeBase58(s: string, maxLen: int) returns (r: Option<seq<nat>>)
    ensures r == Decode(s, maxLen)
  {
    if '\0' in s {
      return None;
    }
    var i := 0;
    while i < |s| && IsSpace(s[i])
      invariant i <= |s| && forall j | 0 <= j < i :: IsSpace(s[j])
    {
      i := i + 1;
    }
    SpanAtLeast(s, IsSpace, i);
    var t := s[i..];
    var zeroes := 0;
    while zeroes < |t| && t[zeroes] == '1'
      invariant zeroes <= |t| && (forall j | 0 <= j < zeroes :: IsOne(t[j])) && (zeroes > 0 ==> zeroes <= maxLen)
    {
      zeroes := zeroes + 1;
      SpanAtLeast(t, IsOne, zeroes);
      if zeroes > maxLen {
        return None;
      }
    }
    SpanAtLeast(t, IsOne, zeroes);
    r := DecodeDigits(t[zeroes..], zeroes, maxLen);
  }

  lemma InvalidText(rest: string, j: nat)
    requires j < |rest| && (forall i | 0 <= i <= j :: IsText(rest[i])) && !Valid(rest[j])
    ensures !AllValid(rest[..Span(rest, IsText)])
  {
    SpanAtLeast(rest, IsText, j + 1);
    assert rest[..Span(rest, IsText)][j] == rest[j];
  }

  lemma TooLong(rest: string, zeroes: nat, maxLen: int, j: nat)
    requires 0 < j <= |rest| && (forall i | 0 <= i < j :: IsText(rest[i])) && AllValid(rest[..j])
    requires zeroes + |ToDigits(Num(Indices(rest[..j]), 58), 256)| > maxLen
    ensures DecodeRest(rest, zeroes, maxLen) == None
  {
    SpanAtLeast(rest, IsText, j);
    var body := rest[..Span(rest, IsText)];
    if AllValid(body) {
      assert Indices(body)[..j] == Indices(rest[..j]);
      PrefixShorter(Indices(body), j);
    }
  }

  lemma IndicesNext(rest: string, j: nat)
    requires j < |rest| && AllValid(rest[..j]) && Valid(rest[j])
    ensures AllValid(rest[..j + 1])
    ensures Indices(rest[..j + 1]) == Indices(rest[..j]) + [CharDigit(rest[j])]
  {
    AlphabetInverse(rest[j], 0);
    assert rest[..j + 1] == rest[..j] + [rest[j]];
  }

  /** The first `j` characters are digits, and the buffer holds their number. */
  ghost predicate Decoded(rest: string, j: nat, buf: seq<nat>, length: nat) {
    && j <= |rest| && (forall i | 0 <= i < j :: IsText(rest[i])) && AllValid(rest[..j])
    && Holds(buf, 256, length, Num(Indices(rest[..j]), 58))
  }

  lemma DecodedStart(rest: string, buf: seq<nat>)
    requires forall i | 0 <= i < |buf| :: buf[i] == 0
    ensures Decoded(rest, 0, buf, 0)
  {
    HoldsStart(buf, 256);
    assert Indices(rest[..0]) == [];
  }

  /** The next digit fits into the buffer, and adding it decodes one more character. */
  lemma DecodedNext(rest: string, j: nat, buf: seq<nat>, length: nat, size: nat) returns (v: nat)
    requires Decoded(rest, j, buf, length) && j < |rest| && IsText(rest[j]) && Valid(rest[j])
    requires Pow(58, |rest|) <= Pow(256, size)
    ensures CharDigit(rest[j]) < 58 && Holds(buf, 256, length, v)
    ensures Image(58, v, CharDigit(rest[j])) < Pow(256, size)
    ensures forall buf', length' | Holds(buf', 256, length', Image(58, v, CharDigit(rest[j]))) ::
              Decoded(rest, j + 1, buf', length')
  {
    hide Pow, Num, Image, Holds;
    IndicesNext(rest, j);
    AlphabetInverse(rest[j], 0);
    var d := Indices(rest[..j + 1]);
    assert d[..j] == Indices(rest[..j]) && d[..j + 1] == d;
    PowMono(58, j + 1, |rest|);
    NextFits(d, j, 58, 256, size);
    v := Num(d[..j], 58);
  }

  lemma DecodedDigits(rest: string, j: nat, buf: seq<nat>, length: nat)
    requires Decoded(rest, j, buf, length)
    ensures length <= |buf| && AllValid(rest[..j])
    ensures buf[|buf| - length..] == ToDigits(Num(Indices(rest[..j]), 58), 256)
    ensures |ToDigits(Num(Indices(rest[..j]), 58), 256)| == length
  {
    hide Pow, Num, ToDigits;
    HoldsDigits(buf, 256, length, Num(Indices(rest[..j]), 58));
  }

  method DecodeDigits(rest: string, zeroes: nat, maxLen: int) returns (r: Option<seq<nat>>)
    ensures r == DecodeRest(rest, zeroes, maxLen)
  {
    hide Pow, Num, Image, Holds, ToDigits, Decoded, DecodeRest;
    var size := |rest| * 733 / 1000 + 1;
    var b256 := new nat[size](_ => 0);
    DecodedStart(rest, b256[..]);
    DecodeFits(|rest|);
    var length: nat, j := 0, 0;
    while j < |rest| && !IsSpace(rest[j])
      invariant j <= |rest| && (forall i | 0 <= i < j :: IsText(rest[i]))
      invariant Decoded(rest, j, b256[..], length)
      invariant j > 0 ==> zeroes + length <= maxLen
    {
      var digit := CharDigit(rest[j]);
      if digit == -1 {
        InvalidText(rest, j);
        RestInvalid(rest, zeroes, maxLen);
        return None;
      }
      ghost var v := DecodedNext(rest, j, b256[..], length, size);
      length := MulAdd(b256, 256, 58, digit, length, v);
      j := j + 1;
      DecodedDigits(rest, j, b256[..], length);
      if length + zeroes > maxLen {
        TooLong(rest, zeroes, maxLen, j);
        return None;
      }
    }
    DecodedDigits(rest, j, b256[..], length);
    var tail := rest[j..];
    var k := 0;
    while k < |tail| && IsSpace(tail[k])
      invariant k <= |tail| && forall i | 0 <= i < k :: IsSpace(tail[i])
    {
      k := k + 1;
    }
    RestIs(rest, zeroes, maxLen, j, k);
    if k < |tail| {
      return None;
    }
    return Some(seq(zeroes, _ => 0) + b256[size - length..]);
  }

  lemma RestInvalid(rest: string, zeroes: nat, maxLen: int)
    requires !AllValid(rest[..Span(rest, IsText)])
    ensures DecodeRest(rest, zeroes, maxLen) == None
  {}

  lemma RestIs(rest: string, zeroes: nat, maxLen: int, j: nat, k: nat)
    requires j <= |rest| && (forall i | 0 <= i < j :: IsText(rest[i])) && (j < |rest| ==> IsSpace(rest[j]))
    requires AllValid(rest[..j]) && k <= |rest[j..]|
    requires (forall i | 0 <= i < k :: IsSpace(rest[j..][i])) && (k < |rest[j..]| ==> !IsSpace(rest[j..][k]))
    requires j > 0 ==> zeroes + |ToDigits(Num(Indices(rest[..j]), 58), 256)| <= maxLen
    ensures DecodeRest(rest, zeroes, maxLen) ==
            if k < |rest[j..]| then None
            else Some(seq(zeroes, _ => 0) + ToDigits(Num(Indices(rest[..j]), 58), 256))
  {
    SpanAtLeast(rest, IsText, j);
    SpanAtLeast(rest[j..], IsSpace, k);
  }

  // ---------------------------------------------------------------- round trips

  lemma IndicesOfChars(d: seq<nat>)
    requires Digits(d, 58)
    ensures AllValid(Chars(d)) && Indices(Chars(d)) == d
    ensures forall i | 0 <= i < |d| :: IsText(Chars(d)[i]) && Chars(d)[i] != '\0' && (Chars(d)[i] == '1' <==> d[i] == 0)
  {
    forall i | 0 <= i < |d|
      ensures Valid(Chars(d)[i]) && CharDigit(Chars(d)[i]) == d[i] && IsText(Chars(d)[i]) && Chars(d)[i] != '\0'
      ensures Chars(d)[i] == '1' <==> d[i] == 0
    {
      AlphabetInverse('1', d[i]);
    }
  }

  lemma CharsOfIndices(s: string)
    requires AllValid(s)
    ensures Chars(Indices(s)) == s
  {
    forall i | 0 <= i < |s| ensures DigitChar(CharDigit(s[i])) == s[i] {
      AlphabetInverse(s[i], 0);
    }
  }

  /** A text of ones followed by digits that do not start with a one, decoded. */
  lemma DecodeText(z: nat, body: string, maxLen: int)
    requires AllValid(body) && (body != [] ==> body[0] != '1')
    requires (z > 0 ==> z <= maxLen) && (body != [] ==> z + |ToDigits(Num(Indices(body), 58), 256)| <= maxLen)
    ensures Decode(seq(z, _ => '1') + body, maxLen)
         == Some(seq(z, _ => 0) + ToDigits(Num(Indices(body), 58), 256))
  {
    hide Num, ToDigits, DecodeRest;
    var s := seq(z, _ => '1') + body;
    forall i | 0 <= i < |body| ensures IsText(body[i]) && body[i] != '\0' { AlphabetInverse(body[i], 0); }
    assert |s| > 0 ==> !IsSpace(s[0]);
    SpanAtLeast(s, IsSpace, 0);
    assert s[0..] == s;
    SpanAtLeast(s, IsOne, z);
    assert s[z..] == body && body[..|body|] == body;
    RestIs(body, z, maxLen, |body|, 0);
  }

  lemma LeadingZerosOf(z: nat, d: seq<nat>)
    requires d != [] ==> d[0] != 0
    ensures LeadingZeros(seq(z, _ => 0) + d) == z && (seq(z, _ => 0) + d)[z..] == d
  {
    LeadingZerosUnique(seq(z, _ => 0) + d, z);
  }

  /** Decoding the encoding of any byte string gives it back. */
  lemma {:induction false} DecodeOfEncode(b: seq<nat>, maxLen: int)
    requires Digits(b, 256) && maxLen >= |b|
    ensures Decode(Encode(b), maxLen) == Some(b)
  {
    hide Num, ToDigits, Decode;
    var z := LeadingZeros(b);
    var v := Num(b[z..], 256);
    ToDigitsIs(v, 58);
    var d := ToDigits(v, 58);
    IndicesOfChars(d);
    DigitsUnique(b[z..], 256);
    DecodeText(z, Chars(d), maxLen);
    assert b == seq(z, _ => 0) + b[z..];
  }

  /** Encoding what was decoded from a text without spaces gives the text back. */
  lemma {:induction false} EncodeOfDecode(s: string, maxLen: int)
    requires Decode(s, maxLen).Some? && forall i | 0 <= i < |s| :: !IsSpace(s[i])
    ensures Encode(Decode(s, maxLen).value) == s
  {
    hide Num, ToDigits;
    SpanAtLeast(s, IsSpace, 0);
    assert s[0..] == s;
    var z := Span(s, IsOne);
    var body := s[z..];
    SpanAtLeast(body, IsText, |body|);
    assert body[..|body|] == body;
    var v := Num(Indices(body), 58);
    ToDigitsIs(v, 256);
    LeadingZerosOf(z, ToDigits(v, 256));
    if body != [] { AlphabetInverse(body[0], 0); }
    DigitsUnique(Indices(body), 58);
    CharsOfIndices(body);
    assert s == seq(z, _ => '1') + body;
  }

  // ---------------------------------------------------------------- white space

  lemma {:induction false} SpanBefore(s: string, b: string, p: char -> bool)
    requires b == [] || !p(b[0])
    ensures Span(s + b, p) == Span(s, p)
  {
    var n := Span(s, p);
    assert forall i | 0 <= i < |s| :: (s + b)[i] == s[i];
    SpanAtLeast(s + b, p, n);
  }

  ghost predicate Spaces(s: string) {
    forall i | 0 <= i < |s| :: s[i] in [' ', '\t', '\n', '\r', 11 as char, 12 as char]
  }

  lemma {:induction false} SpacesAre(s: string)
    requires Spaces(s)
    ensures forall i | 0 <= i < |s| :: IsSpace(s[i]) && !IsText(s[i]) && !IsOne(s[i]) && s[i] != '\0'
  {}

  lemma {:induction false} RestTrims(rest: string, b: string, zeroes: nat, maxLen: int)
    requires Spaces(b)
    ensures DecodeRest(rest + b, zeroes, maxLen) == DecodeRest(rest, zeroes, maxLen)
  {
    SpacesAre(b);
    SpanBefore(rest, b, IsText);
    var m := Span(rest, IsText);
    var body, tail := rest[..m], rest[m..];
    assert (rest + b)[..m] == body && (rest + b)[m..] == tail + b;
    hide Spaces;
    var n := Span(tail, IsSpace);
    assert forall i | 0 <= i < |tail| :: (tail + b)[i] == tail[i];
    if n == |tail| {
      SpanAtLeast(tail + b, IsSpace, |tail + b|);
    } else {
      SpanAtLeast(tail + b, IsSpace, n);
    }
  }

  lemma {:induction false} NullWithin(a: string, b: string)
    requires forall i | 0 <= i < |a| :: a[i] != '\0'
    ensures '\0' in a + b <==> '\0' in b
    ensures '\0' in b + a <==> '\0' in b
  {}

  lemma {:induction false} LeadingSpan(a: string, s: string)
    requires forall i | 0 <= i < |a| :: IsSpace(a[i])
    ensures Span(a + s, IsSpace) == |a| + Span(s, IsSpace)
    ensures (a + s)[|a| + Span(s, IsSpace)..] == s[Span(s, IsSpace)..]
  {
    hide IsSpace;
    var k := Span(s, IsSpace);
    SpanAtLeast(a + s, IsSpace, |a| + k);
  }

  lemma {:induction false} LeadingTrims(a: string, s: string, maxLen: int)
    requires Spaces(a)
    ensures Decode(a + s, maxLen) == Decode(s, maxLen)
  {
    hide Stripped, Span;
    SpacesAre(a);
    hide Spaces, IsSpace;
    NullWithin(a, s);
    LeadingSpan(a, s);
  }

  lemma {:induction false} StrippedTrims(t: string, b: string, maxLen: int)
    requires Spaces(b)
    ensures Stripped(t + b, maxLen) == Stripped(t, maxLen)
  {
    hide DecodeRest, Span;
    SpacesAre(b);
    SpanBefore(t, b, IsOne);
    var z := Span(t, IsOne);
    assert (t + b)[z..] == t[z..] + b;
    hide Spaces;
    RestTrims(t[z..], b, z, maxLen);
  }

  lemma {:induction false} StrippedSpaces(b: string)
    requires Spaces(b)
    ensures Span(b, IsSpace) == |b|
  {
    SpacesAre(b);
    SpanAtLeast(b, IsSpace, |b|);
  }

  lemma {:induction false} TrailingTrims(s: string, b: string, maxLen: int)
    requires Spaces(b)
    ensures Decode(s + b, maxLen) == Decode(s, maxLen)
  {
    hide Stripped, Span;
    SpacesAre(b);
    NullWithin(b, s);
    StrippedSpaces(b);
    hide Spaces, IsSpace;
    var k := Span(s, IsSpace);
    if k == |s| {
      LeadingSpan(s, b);
      assert (s + b)[|s + b|..] == s[|s|..];
    } else {
      SpanAtLeast(s + b, IsSpace, k);
      assert (s + b)[k..] == s[k..] + b;
      StrippedTrims(s[k..], b, maxLen);
    }
  }

  /** White space around a text does not matter: space, tab, line feed, carriage return, vertical tab, form feed. */
  lemma {:induction false} DecodeTrims(a: string, s: string, b: string, maxLen: int)
    requires Spaces(a) && Spaces(b)
    ensures Decode(a + s + b, maxLen) == Decode(s, maxLen)
  {
    hide Decode, Spaces;
    assert a + s + b == a + (s + b);
    LeadingTrims(a, s + b, maxLen);
    TrailingTrims(s, b, maxLen);
  }
}
