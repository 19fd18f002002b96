/** Encoding and decoding of Bech32 and Bech32m strings. */
module Bech32 {
  import opened Options
  import opened Bech32Checksum

  const SEPARATOR: bv8 := 0x31

  // ---------------------------------------------------------------- characters

  /** The character set "qpzry9x8gf2tvdw0s3jn54khce6mua7l", in two halves. */
  function SymbolChar(v: bv8): bv8 {
    if v < 16 then LowChar(v) else HighChar(v)
  }

  function LowChar(v: bv8): bv8 {
    if v == 0 then 0x71 else if v == 1 then 0x70 else if v == 2 then 0x7a else if v == 3 then 0x72
    else if v == 4 then 0x79 else if v == 5 then 0x39 else if v == 6 then 0x78 else if v == 7 then 0x38
    else if v == 8 then 0x67 else if v == 9 then 0x66 else if v == 10 then 0x32 else if v == 11 then 0x74
    else if v == 12 then 0x76 else if v == 13 then 0x64 else if v == 14 then 0x77
    else 0x30
  }

  function HighChar(v: bv8): bv8 {
    if v == 16 then 0x73 else if v == 17 then 0x33 else if v == 18 then 0x6a else if v == 19 then 0x6e
    else if v == 20 then 0x35 else if v == 21 then 0x34 else if v == 22 then 0x6b else if v == 23 then 0x68
    else if v == 24 then 0x63 else if v == 25 then 0x65 else if v == 26 then 0x36 else if v == 27 then 0x6d
    else if v == 28 then 0x75 else if v == 29 then 0x61 else if v == 30 then 0x37
    else 0x6c
  }

  predicate IsUpper(c: bv8) { 0x41 <= c <= 0x5a }

  predicate IsLower(c: bv8) { 0x61 <= c <= 0x7a }

  predicate Printable(c: bv8) { 33 <= c <= 126 }

  function LowerCase(c: bv8): bv8 {
    if IsUpper(c) then (c - 0x41) + 0x61 else c
  }

  /** The reverse table: both cases of a letter stand for the same symbol. */
  function CharSymbol(c: bv8): Option<bv8> {
    LowerSymbol(LowerCase(c))
  }

  function LowerSymbol(l: bv8): Option<bv8> {
    if l <= 0x68 then FirstSymbol(l) else LastSymbol(l)
  }

  function FirstSymbol(l: bv8): Option<bv8> {
    if l == 0x30 then Some(15) else if l == 0x32 then Some(10)
    else if l == 0x33 then Some(17) else if l == 0x34 then Some(21)
    else if l == 0x35 then Some(20) else if l == 0x36 then Some(26)
    else if l == 0x37 then Some(30) else if l == 0x38 then Some(7)
    else if l == 0x39 then Some(5) else if l == 0x61 then Some(29)
    else if l == 0x63 then Some(24) else if l == 0x64 then Some(13)
    else if l == 0x65 then Some(25) else if l == 0x66 then Some(9)
    else if l == 0x67 then Some(8) else if l == 0x68 then Some(23)
    else None
  }

  function LastSymbol(l: bv8): Option<bv8> {
    if l == 0x6a then Some(18) else if l == 0x6b then Some(22)
    else if l == 0x6c then Some(31) else if l == 0x6d then Some(27)
    else if l == 0x6e then Some(19) else if l == 0x70 then Some(1)
    else if l == 0x71 then Some(0) else if l == 0x72 then Some(3)
    else if l == 0x73 then Some(16) else if l == 0x74 then Some(11)
    else if l == 0x75 then Some(28) else if l == 0x76 then Some(12)
    else if l == 0x77 then Some(14) else if l == 0x78 then Some(6)
    else if l == 0x79 then Some(4) else if l == 0x7a then Some(2)
    else None
  }

  lemma LowSymbols(v: bv8)
    requires v < 16
    ensures LowerSymbol(SymbolChar(v)) == Some(v)
  {}

  lemma HighSymbols(v: bv8)
    requires 16 <= v < 32
    ensures LowerSymbol(SymbolChar(v)) == Some(v)
  {}

  lemma SymbolShape(v: bv8)
    ensures Printable(SymbolChar(v)) && !IsUpper(SymbolChar(v)) && SymbolChar(v) != SEPARATOR
  {}

  lemma SymbolRead(v: bv8)
    requires v < 32
    ensures CharSymbol(SymbolChar(v)) == Some(v)
  {
    SymbolShape(v);
    if v < 16 { LowSymbols(v); } else { HighSymbols(v); }
    hide SymbolChar, LowerSymbol;
  }

  lemma FirstWritten(l: bv8)
    requires FirstSymbol(l).Some?
    ensures FirstSymbol(l).value < 32 && SymbolChar(FirstSymbol(l).value) == l
  {}

  lemma LastWritten(l: bv8)
    requires LastSymbol(l).Some?
    ensures LastSymbol(l).value < 32 && SymbolChar(LastSymbol(l).value) == l
  {}

  lemma SymbolWritten(c: bv8)
    requires CharSymbol(c).Some?
    ensures CharSymbol(c).value < 32 && SymbolChar(CharSymbol(c).value) == LowerCase(c)
  {
    hide FirstSymbol, LastSymbol, SymbolChar;
    var l := LowerCase(c);
    if FirstSymbol(l).Some? { FirstWritten(l); }
    if LastSymbol(l).Some? { LastWritten(l); }
  }

  lemma LowerTwice(c: bv8)
    ensures LowerCase(LowerCase(c)) == LowerCase(c) && (LowerCase(c) == SEPARATOR <==> c == SEPARATOR)
    ensures !IsUpper(c) ==> LowerCase(c) == c
  {}

  lemma SameSymbol(c: bv8, d: bv8)
    requires LowerCase(c) == LowerCase(d)
    ensures CharSymbol(c) == CharSymbol(d)
  {}

  // ---------------------------------------------------------------- well-formed strings

  predicate IsLetter(c: bv8) { IsUpper(c) || IsLower(c) }

  ghost predicate NoUpper(s: Bytes) { forall i | 0 <= i < |s| :: !IsUpper(s[i]) }

  ghost predicate NoLower(s: Bytes) { forall i | 0 <= i < |s| :: !IsLower(s[i]) }

  ghost predicate AllPrintable(s: Bytes) { forall i | 0 <= i < |s| :: Printable(s[i]) }

  /** Printable characters, and not letters of both cases. */
  ghost predicate WellFormed(s: Bytes) {
    AllPrintable(s) && (NoUpper(s) || NoLower(s))
  }

  /** The first letter among the first n characters, or n. */
  ghost function FirstLetter(s: Bytes, n: nat): (k: nat)
    requires n <= |s|
    ensures k <= n && (forall j | 0 <= j < k :: !IsLetter(s[j])) && (k < n ==> IsLetter(s[k]))
  {
    if n == 0 then 0
    else var k := FirstLetter(s, n - 1);
         if k < n - 1 || IsLetter(s[n - 1]) then k else n
  }

  /** Position i holds an unprintable character, or a letter of another case than the first letter. */
  ghost predicate Offends(s: Bytes, i: nat)
    requires i < |s|
  {
    if IsLetter(s[i]) then
      var k := FirstLetter(s, i);
      k < i && IsUpper(s[k]) != IsUpper(s[i])
    else !Printable(s[i])
  }

  lemma LetterShape(c: bv8)
    ensures IsLetter(c) ==> Printable(c)
    ensures !(IsUpper(c) && IsLower(c))
  {}

  lemma NoOffence(s: Bytes)
    ensures WellFormed(s) <==> forall i | 0 <= i < |s| :: !Offends(s, i)
  {
    hide IsUpper, IsLower, Printable;
    forall i | 0 <= i < |s| ensures IsLetter(s[i]) ==> Printable(s[i]) && !(IsUpper(s[i]) && IsLower(s[i])) {
      LetterShape(s[i]);
    }
    if forall i | 0 <= i < |s| :: !Offends(s, i) {
      var k := FirstLetter(s, |s|);
      forall i | 0 <= i < |s|
        ensures Printable(s[i]) && (IsLetter(s[i]) ==> k < |s| && IsUpper(s[k]) == IsUpper(s[i]))
      {
        FirstStays(s, i, |s|);
        assert !Offends(s, i);
      }
    }
  }

  lemma {:induction false} FirstStays(s: Bytes, i: nat, n: nat)
    requires i < n <= |s|
    ensures FirstLetter(s, i) < i ==> FirstLetter(s, n) == FirstLetter(s, i)
    ensures IsLetter(s[i]) && FirstLetter(s, i) == i ==> FirstLetter(s, n) == i
    decreases n
  {
    hide IsLetter;
    if i < n - 1 { FirstStays(s, i, n - 1); }
  }

  method CheckCharacters(str: Bytes) returns (ok: bool, errors: seq<nat>)
    ensures ok <==> WellFormed(str)
    ensures ok <==> errors == []
    ensures forall i: nat :: i in errors <==> i < |str| && Offends(str, i)
    ensures forall j, k | 0 <= j < k < |errors| :: errors[j] < errors[k]
  {
    var lower, upper := false, false;
    errors := [];
    hide IsUpper, IsLower, Printable;
    for i := 0 to |str|
      invariant lower <==> FirstLetter(str, i) < i && IsLower(str[FirstLetter(str, i)])
      invariant upper <==> FirstLetter(str, i) < i && IsUpper(str[FirstLetter(str, i)])
      invariant forall k: nat :: k in errors <==> k < i && Offends(str, k)
      invariant forall j | 0 <= j < |errors| :: errors[j] < i
      invariant forall j, k | 0 <= j < k < |errors| :: errors[j] < errors[k]
    {
      var c := str[i];
      ghost var first := FirstLetter(str, i);
      LetterShape(c);
      if first < i { LetterShape(str[first]); }
      FirstStays(str, i, i + 1);
      if IsLower(c) {
        if upper { errors := errors + [i]; } else { lower := true; }
      } else if IsUpper(c) {
        if lower { errors := errors + [i]; } else { upper := true; }
      } else if !Printable(c) {
        errors := errors + [i];
      }
    }
    ok := errors == [];
    NoOffence(str);
    assert errors != [] ==> errors[0] in errors;
  }

  // ---------------------------------------------------------------- encoding

  function Chars(values: Bytes): (r: Bytes)
    ensures |r| == |values|
  {
    seq(|values|, i requires 0 <= i < |values| => SymbolChar(values[i]))
  }

  /** The string that stands for a prefix and values. */
  function Encoded(e: Encoding, hrp: Bytes, values: Bytes): Bytes {
    hrp + [SEPARATOR] + Chars(values + ChecksumOf(e, hrp, values))
  }

  method Encode(e: Encoding, hrp: Bytes, values: Bytes) returns (ret: Bytes)
    requires NoUpper(hrp) && Symbols(values)
    ensures ret == Encoded(e, hrp, values)
  {
    hide SymbolChar, ChecksumOf;
    ret := hrp + [SEPARATOR];
    for i := 0 to |values|
      invariant ret == hrp + [SEPARATOR] + Chars(values[..i])
    {
      ret := ret + [SymbolChar(values[i])];
    }
    assert values[..|values|] == values;
    var sum := CreateChecksum(e, hrp, values);
    for i := 0 to |sum|
      invariant ret == hrp + [SEPARATOR] + Chars(values + sum[..i])
    {
      ret := ret + [SymbolChar(sum[i])];
    }
    assert sum[..|sum|] == sum;
  }

  // ---------------------------------------------------------------- decoding

  datatype Decoded = Decoded(encoding: Encoding, hrp: Bytes, data: Bytes)

  function LowerAll(s: Bytes): (r: Bytes)
    ensures |r| == |s|
  {
    seq(|s|, i requires 0 <= i < |s| => LowerCase(s[i]))
  }

  /** A string of at most limit characters, in one case, that spells an encoding apart from case. */
  ghost predicate Spells(s: Bytes, limit: nat, d: Decoded) {
    WellFormed(s) && |s| <= limit && d.hrp != [] && Symbols(d.data)
    && LowerAll(s) == Encoded(d.encoding, d.hrp, d.data)
  }

  /** The separator at pos is the last one. */
  ghost predicate LastSeparator(s: Bytes, pos: nat) {
    pos < |s| && s[pos] == SEPARATOR && forall i | pos < i < |s| :: s[i] != SEPARATOR
  }

  method FindLastSeparator(s: Bytes) returns (pos: nat)
    ensures pos <= |s| && (pos < |s| ==> LastSeparator(s, pos))
    ensures pos == |s| ==> SEPARATOR !in s
  {
    pos := |s|;
    while pos > 0
      invariant pos <= |s| && forall i | pos <= i < |s| :: s[i] != SEPARATOR
    {
      pos := pos - 1;
      if s[pos] == SEPARATOR { return; }
    }
    pos := |s|;
  }

  /** The data part reads as these symbols. */
  ghost predicate Reads(s: Bytes, values: Bytes) {
    |values| == |s| && forall i | 0 <= i < |s| :: CharSymbol(s[i]) == Some(values[i])
  }

  lemma ReadsWritten(s: Bytes, values: Bytes)
    requires Reads(s, values)
    ensures Symbols(values) && Chars(values) == LowerAll(s)
  {
    hide CharSymbol, SymbolChar, LowerCase;
    forall i | 0 <= i < |s| ensures values[i] < 32 && SymbolChar(values[i]) == LowerCase(s[i]) {
      SymbolWritten(s[i]);
    }
  }

  lemma WrittenReads(s: Bytes, values: Bytes)
    requires Symbols(values) && Chars(values) == LowerAll(s)
    ensures Reads(s, values) && SEPARATOR !in s
  {
    hide CharSymbol, SymbolChar, LowerCase;
    forall i | 0 <= i < |s| ensures CharSymbol(s[i]) == Some(values[i]) && s[i] != SEPARATOR {
      assert Chars(values)[i] == LowerAll(s)[i];
      SymbolRead(values[i]);
      SymbolShape(values[i]);
      LowerTwice(s[i]);
      SameSymbol(s[i], SymbolChar(values[i]));
      LowerTwice(SymbolChar(values[i]));
    }
  }

  /** What the decoder checks, one test after another. */
  ghost predicate Parses(s: Bytes, pos: nat, values: Bytes, d: Decoded) {
    LastSeparator(s, pos) && 0 < pos && pos + CHECKSUM_SIZE < |s| && Reads(s[pos + 1..], values)
    && d.hrp == LowerAll(s[..pos]) && |values| >= CHECKSUM_SIZE && d.data == values[..|values| - CHECKSUM_SIZE]
    && Check(d.hrp, values) == EncodingConstant(d.encoding)
  }

  lemma LowerCut(s: Bytes, pos: nat)
    requires pos < |s|
    ensures LowerAll(s) == LowerAll(s[..pos]) + [LowerCase(s[pos])] + LowerAll(s[pos + 1..])
  {}

  lemma ParsesSpells(s: Bytes, limit: nat, pos: nat, values: Bytes, d: Decoded)
    requires WellFormed(s) && |s| <= limit && Parses(s, pos, values, d)
    ensures Spells(s, limit, d)
  {
    hide WellFormed, Check, ChecksumOf, LowerAll, Chars, EncodingConstant;
    LowerCut(s, pos);
    LowerTwice(s[pos]);
    hide LowerCase;
    ReadsWritten(s[pos + 1..], values);
    var tail := values[|values| - CHECKSUM_SIZE..];
    assert values == d.data + tail;
    ChecksumUnique(d.encoding, d.hrp, d.data, tail);
  }

  lemma SpellsParses(s: Bytes, limit: nat, d: Decoded)
    requires Spells(s, limit, d)
    ensures Parses(s, |d.hrp|, d.data + ChecksumOf(d.encoding, d.hrp, d.data), d)
  {
    hide WellFormed, Check, ChecksumOf, LowerAll, Chars, EncodingConstant;
    var pos, values := |d.hrp|, d.data + ChecksumOf(d.encoding, d.hrp, d.data);
    assert |s| == pos + 1 + |values|;
    LowerCut(s, pos);
    LowerTwice(s[pos]);
    hide LowerCase;
    SplitEqual(LowerAll(s[..pos]), LowerCase(s[pos]), LowerAll(s[pos + 1..]), d.hrp, SEPARATOR, Chars(values));
    ChecksumChecks(d.encoding, d.hrp, d.data);
    WrittenReads(s[pos + 1..], values);
    assert forall i | pos < i < |s| :: s[i] == s[pos + 1..][i - pos - 1];
  }

  lemma SplitEqual(a: Bytes, b: bv8, c: Bytes, p: Bytes, q: bv8, r: Bytes)
    requires |a| == |p| && a + [b] + c == p + [q] + r
    ensures a == p && b == q && c == r
  {
    var u, w := a + [b] + c, p + [q] + r;
    assert a == u[..|a|] && p == w[..|a|] && u[|a|] == b && w[|a|] == q;
    assert c == u[|a| + 1..] && r == w[|a| + 1..];
  }

  ghost function Word(d: Decoded): Bytes {
    d.data + ChecksumOf(d.encoding, d.hrp, d.data)
  }

  lemma SpellsAllParse(s: Bytes, limit: nat)
    ensures forall d | Spells(s, limit, d) :: Parses(s, |d.hrp|, Word(d), d)
  {
    hide Parses, Spells;
    forall d | Spells(s, limit, d) ensures Parses(s, |d.hrp|, Word(d), d) {
      SpellsParses(s, limit, d);
    }
  }

  /** Reading is deterministic. */
  lemma ParsesOnce(s: Bytes, p: nat, values: Bytes, q: nat, others: Bytes)
    requires LastSeparator(s, p) && Reads(s[p + 1..], values)
    requires LastSeparator(s, q) && Reads(s[q + 1..], others)
    ensures p == q && values == others
  {
    hide CharSymbol;
    assert p == q;
    forall i | 0 <= i < |values| ensures values[i] == others[i] {
      assert CharSymbol(s[p + 1..][i]) == Some(values[i]);
    }
  }

  /** A string that parses at all spells only what it parses to. */
  lemma SpellsOnly(s: Bytes, limit: nat, pos: nat, values: Bytes, hrp: Bytes, d: Decoded)
    requires LastSeparator(s, pos) && Reads(s[pos + 1..], values) && hrp == LowerAll(s[..pos]) && Spells(s, limit, d)
    ensures d.hrp == hrp && |values| >= CHECKSUM_SIZE && d.data == values[..|values| - CHECKSUM_SIZE]
    ensures Check(hrp, values) == EncodingConstant(d.encoding)
  {
    SpellsParses(s, limit, d);
    hide LastSeparator, Reads, Check, Spells, EncodingConstant, LowerAll;
    ParsesOnce(s, pos, values, |d.hrp|, Word(d));
  }

  method Decode(str: Bytes, limit: nat) returns (r: Option<Decoded>)
    ensures forall d :: r == Some(d) <==> Spells(str, limit, d)
  {
    var ok, errors := CheckCharacters(str);
    if !ok { return None; }
    var pos := FindLastSeparator(str);
    if |str| > limit { return None; }
    hide LowerCase, CharSymbol, Check, Encoded, EncodingConstant, WellFormed;
    SpellsAllParse(str, limit);
    if pos == |str| || pos == 0 || pos + CHECKSUM_SIZE >= |str| { return None; }
    var values: Bytes := [];
    for i := 0 to |str| - 1 - pos
      invariant Reads(str[pos + 1..pos + 1 + i], values)
    {
      var rev := CharSymbol(str[i + pos + 1]);
      if rev.None? {
        assert str[pos + 1..][i] == str[i + pos + 1];
        return None;
      }
      values := values + [rev.value];
    }
    assert str[pos + 1..pos + 1 + (|str| - 1 - pos)] == str[pos + 1..];
    var hrp: Bytes := [];
    for i := 0 to pos
      invariant hrp == LowerAll(str[..i])
    {
      hrp := hrp + [LowerCase(str[i])];
    }
    hide Reads, LastSeparator, LowerAll;
    forall d | Spells(str, limit, d)
      ensures d.hrp == hrp && d.data == values[..|values| - CHECKSUM_SIZE]
          && Check(hrp, values) == EncodingConstant(d.encoding)
    {
      SpellsOnly(str, limit, pos, values, hrp, d);
    }
    var result := VerifyChecksum(hrp, values);
    if result.None? { return None; }
    var d := Decoded(result.value, hrp, values[..|values| - CHECKSUM_SIZE]);
    assert |values| == |str| - 1 - pos;
    ParsesSpells(str, limit, pos, values, d);
    r := Some(d);
  }

  /** What the encoder writes within the limit, the decoder reads back. */
  lemma EncodedSpells(e: Encoding, hrp: Bytes, values: Bytes, limit: nat)
    requires hrp != [] && AllPrintable(hrp) && NoUpper(hrp) && Symbols(values)
    requires |hrp| + 1 + |values| + CHECKSUM_SIZE <= limit
    ensures Spells(Encoded(e, hrp, values), limit, Decoded(e, hrp, values))
  {
    var s, word := Encoded(e, hrp, values), Word(Decoded(e, hrp, values));
    SeparatorShape();
    hide SymbolChar, LowerCase, IsUpper, Printable, ChecksumOf;
    assert s == hrp + [SEPARATOR] + Chars(word);
    forall i | 0 <= i < |s| ensures Printable(s[i]) && !IsUpper(s[i]) && LowerAll(s)[i] == s[i] {
      if i > |hrp| {
        assert s[i] == SymbolChar(word[i - |hrp| - 1]);
        SymbolShape(word[i - |hrp| - 1]);
      }
      LowerTwice(s[i]);
    }
  }

  lemma SeparatorShape()
    ensures Printable(SEPARATOR) && !IsUpper(SEPARATOR)
  {}
}
