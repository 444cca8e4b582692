/**
 * Spreadsheet address and header helpers of src/lib/utils.ts (duplicated
 * verbatim in src/lib/google-sheets.ts): `toA1`, which renders a 0-based
 * column index in bijective base 26 followed by a row number, and
 * `mapHeaders`, which maps each normalised header name to its column.
 */
module Utils {
  import opened Text
  import opened Wrappers

  function Letter(k: nat): char
    requires k < 26
  {
    (65 + k) as char
  }

  predicate AllUpper(s: string) {
    forall i :: 0 <= i < |s| ==> IsUpper(s[i])
  }

  /** The bijective base-26 numeral of `n` over 'A'..'Z' (there is no zero digit). */
  function Letters(n: nat): string
    decreases n
  {
    if n == 0 then [] else Letters((n - 1) / 26) + [Letter((n - 1) % 26)]
  }

  /** The numeral of a positive number is a non-empty string of capitals. */
  lemma {:induction false} LettersUpper(n: nat)
    ensures AllUpper(Letters(n))
    ensures (Letters(n) == []) == (n == 0)
    decreases n
  {
    if n > 0 {
      LettersUpper((n - 1) / 26);
    }
  }

  /** The letter part of the address of 0-based column `col`. */
  function ColumnLetters(col: nat): string {
    Letters(col + 1)
  }

  /** The address `toA1(col, row)` is meant to return. */
  function A1(col: nat, row: nat): string {
    ColumnLetters(col) + Decimal(row)
  }

  /** The number a string of capital letters denotes in bijective base 26. */
  function DecodeLetters(s: string): (n: nat)
    requires AllUpper(s)
    ensures (n == 0) == (s == [])
    decreases |s|
  {
    if s == [] then 0 else DecodeLetters(s[..|s| - 1]) * 26 + (s[|s| - 1] as int - 64)
  }

  function Reverse(s: string): (r: string)
    ensures |r| == |s|
  {
    seq(|s|, i requires 0 <= i < |s| => s[|s| - 1 - i])
  }

  /**
   * `toA1`: the loop pushes the least significant letter first and the
   * result is the reversed letters followed by the row number.
   */
  method ToA1(colIndex: nat, rowIndex: nat) returns (a1: string)
    ensures a1 == A1(colIndex, rowIndex)
  {
    var chars: seq<char> := [];
    var n: nat := colIndex + 1;
    while n > 0
      invariant Letters(colIndex + 1) == Letters(n) + Reverse(chars)
      decreases n
    {
      var rem := (n - 1) % 26;
      assert Reverse(chars + [Letter(rem)]) == [Letter(rem)] + Reverse(chars);
      chars := chars + [(65 + rem) as char];
      n := (n - 1) / 26;
    }
    a1 := Reverse(chars) + Decimal(rowIndex);
  }

  /** Decoding the letters of a column gives the column back. */
  lemma {:induction false} LettersRoundTrip(n: nat)
    ensures AllUpper(Letters(n)) && DecodeLetters(Letters(n)) == n
    decreases n
  {
    LettersUpper(n);
    if n > 0 {
      var p := Letters((n - 1) / 26);
      assert (p + [Letter((n - 1) % 26)])[..|p|] == p;
      LettersRoundTrip((n - 1) / 26);
    }
  }

  /** Every string of capital letters is the numeral of exactly the number it decodes to. */
  lemma {:induction false} DecodeRoundTrip(s: string)
    requires AllUpper(s)
    ensures Letters(DecodeLetters(s)) == s
    decreases |s|
  {
    if s != [] {
      var t := s[..|s| - 1];
      DecodeRoundTrip(t);
      var v := s[|s| - 1] as int - 64;
      var n := DecodeLetters(t) * 26 + v;
      assert (n - 1) / 26 == DecodeLetters(t) && (n - 1) % 26 == v - 1;
      assert s == t + [s[|s| - 1]];
    }
  }

  /** Distinct columns have distinct letters. */
  lemma ColumnLettersInjective(a: nat, b: nat)
    ensures ColumnLetters(a) == ColumnLetters(b) ==> a == b
  {
    LettersRoundTrip(a + 1);
    LettersRoundTrip(b + 1);
  }

  /** One letter for columns 0..25, two letters for columns 26..701. */
  lemma ColumnLettersLength(col: nat)
    ensures |ColumnLetters(col)| == 1 <==> col < 26
    ensures |ColumnLetters(col)| == 2 <==> 26 <= col < 702
  {
    var q := col / 26;
    assert Letters(col + 1) == Letters(q) + [Letter(col % 26)];
    if q > 0 {
      assert Letters(q) == Letters((q - 1) / 26) + [Letter((q - 1) % 26)];
      assert (q - 1) / 26 == 0 <==> col < 702;
    }
  }

  lemma ColumnLettersExamples()
    ensures ColumnLetters(0) == "A" && ColumnLetters(25) == "Z"
    ensures ColumnLetters(26) == "AA" && ColumnLetters(701) == "ZZ"
    ensures A1(2, 17) == "C17"
  {
    assert Letters(27) == Letters(1) + [Letter(0)];
    assert Letters(702) == Letters(26) + [Letter(25)];
    assert Decimal(17) == Decimal(1) + [DigitChar(7)];
  }

  /** The length of the longest prefix of `s` made of capital letters. */
  function UpperRun(s: string): (n: nat)
    ensures n <= |s|
  {
    if s != [] && IsUpper(s[0]) then 1 + UpperRun(s[1..]) else 0
  }

  /** The longest prefix of `s` made of capital letters. */
  function LeadingUpper(s: string): string {
    s[..UpperRun(s)]
  }

  lemma {:induction false} LeadingUpperSpec(s: string)
    ensures AllUpper(LeadingUpper(s))
    ensures |LeadingUpper(s)| < |s| ==> !IsUpper(s[|LeadingUpper(s)|])
    decreases |s|
  {
    if s != [] && IsUpper(s[0]) {
      LeadingUpperSpec(s[1..]);
      assert LeadingUpper(s) == [s[0]] + LeadingUpper(s[1..]);
    }
  }

  /** Reads an address such as "C17" back into its 0-based column and its row. */
  function ParseA1(s: string): Option<(nat, nat)> {
    var l := LeadingUpper(s);
    var d := s[|l|..];
    if l == [] || d == [] || !AllDigits(d) then None
    else
      LeadingUpperSpec(s);
      Some((DecodeLetters(l) - 1, ParseDecimal(d)))
  }

  lemma {:induction false} LeadingUpperOf(l: string, d: string)
    requires AllUpper(l)
    requires d != [] ==> !IsUpper(d[0])
    ensures LeadingUpper(l + d) == l
    decreases |l|
  {
    if l != [] {
      assert (l + d)[1..] == l[1..] + d;
      LeadingUpperOf(l[1..], d);
    }
  }

  /** The address of a cell determines the cell: `toA1` has an inverse. */
  lemma A1RoundTrip(col: nat, row: nat)
    ensures ParseA1(A1(col, row)) == Some((col, row))
  {
    var l := ColumnLetters(col);
    var d := Decimal(row);
    LettersUpper(col + 1);
    DecimalDigits(row);
    LeadingUpperOf(l, d);
    assert A1(col, row)[|l|..] == d;
    LettersRoundTrip(col + 1);
    DecimalRoundTrip(row);
  }

  /** Distinct cells have distinct addresses. */
  lemma A1Injective(c1: nat, r1: nat, c2: nat, r2: nat)
    ensures A1(c1, r1) == A1(c2, r2) ==> c1 == c2 && r1 == r2
  {
    A1RoundTrip(c1, r1);
    A1RoundTrip(c2, r2);
  }

  /** The key `mapHeaders` files a header under. */
  function Normalize(h: string): string {
    ToLower(Trim(h))
  }

  /** A key that is already trimmed and lower-cased. */
  predicate IsNormalized(k: string) {
    Trim(k) == k && ToLower(k) == k
  }

  lemma NormalizeIsNormalized(h: string)
    ensures IsNormalized(Normalize(h))
  {
    var t := Trim(h);
    TrimIdempotent(h);
    var k := ToLower(t);
    assert ToLower(k) == k;
    TrimOfTrimmed(k);
  }

  /** The key of every header, column by column. */
  function Keys(headers: seq<string>): (ks: seq<string>)
    ensures |ks| == |headers|
  {
    seq(|headers|, i requires 0 <= i < |headers| => Normalize(headers[i]))
  }

  /** Each key of `ks` mapped to its position; a later position overwrites an earlier one. */
  function LastIndex(ks: seq<string>): map<string, nat>
    decreases |ks|
  {
    if ks == [] then map[] else LastIndex(ks[..|ks| - 1])[ks[|ks| - 1] := |ks| - 1]
  }

  /** The map `mapHeaders` builds. */
  function HeaderMap(headers: seq<string>): (m: map<string, nat>)
    ensures forall k :: k in m ==> m[k] < |headers| && Normalize(headers[m[k]]) == k
  {
    LastIndexValues(Keys(headers));
    LastIndex(Keys(headers))
  }

  method MapHeaders(headers: seq<string>) returns (m: map<string, nat>)
    ensures m == HeaderMap(headers)
  {
    ghost var ks := Keys(headers);
    m := map[];
    var i := 0;
    while i < |headers|
      invariant 0 <= i <= |headers|
      invariant m == LastIndex(ks[..i])
    {
      assert ks[..i + 1][..i] == ks[..i];
      m := m[Normalize(headers[i]) := i];
      i := i + 1;
    }
    assert ks[..|headers|] == ks;
  }

  lemma {:induction false} LastIndexHasAll(ks: seq<string>)
    ensures forall i :: 0 <= i < |ks| ==> ks[i] in LastIndex(ks)
    decreases |ks|
  {
    if ks != [] {
      LastIndexHasAll(ks[..|ks| - 1]);
    }
  }

  lemma {:induction false} LastIndexValues(ks: seq<string>)
    ensures forall k :: k in LastIndex(ks) ==> LastIndex(ks)[k] < |ks| && ks[LastIndex(ks)[k]] == k
    decreases |ks|
  {
    if ks != [] {
      LastIndexValues(ks[..|ks| - 1]);
    }
  }

  lemma {:induction false} LastIndexIsLast(ks: seq<string>)
    ensures forall k, j :: k in LastIndex(ks) && LastIndex(ks)[k] < j < |ks| ==> ks[j] != k
    decreases |ks|
  {
    if ks != [] {
      var p := ks[..|ks| - 1];
      LastIndexIsLast(p);
      forall k, j | k in LastIndex(ks) && LastIndex(ks)[k] < j < |ks| ensures ks[j] != k {
        if k != ks[|p|] && j < |p| {
          assert LastIndex(ks)[k] == LastIndex(p)[k];
          assert ks[j] == p[j];
        }
      }
    }
  }

  /**
   * `mapHeaders` in terms of its input: every header's trimmed, lower-cased
   * form is a key; every key maps to a column whose header has that key; and
   * no later column has that key, so when two headers normalise alike the
   * later one wins.
   */
  lemma HeaderMapSpec(h: seq<string>)
    ensures forall i :: 0 <= i < |h| ==> Normalize(h[i]) in HeaderMap(h)
    ensures forall k :: k in HeaderMap(h) ==>
              HeaderMap(h)[k] < |h| && Normalize(h[HeaderMap(h)[k]]) == k
    ensures forall k, j :: k in HeaderMap(h) && HeaderMap(h)[k] < j < |h| ==> Normalize(h[j]) != k
  {
    var ks := Keys(h);
    LastIndexHasAll(ks);
    LastIndexValues(ks);
    LastIndexIsLast(ks);
    forall i | 0 <= i < |h| ensures Normalize(h[i]) in HeaderMap(h) {
      assert ks[i] == Normalize(h[i]);
    }
    forall k, j | k in HeaderMap(h) && HeaderMap(h)[k] < j < |h| ensures Normalize(h[j]) != k {
      assert ks[j] == Normalize(h[j]);
    }
  }

  /** Every key of the map is trimmed and lower-cased. */
  lemma HeaderMapKeysNormalized(h: seq<string>)
    ensures forall k :: k in HeaderMap(h) ==> IsNormalized(k)
  {
    HeaderMapSpec(h);
    forall k | k in HeaderMap(h) ensures IsNormalized(k) {
      NormalizeIsNormalized(h[HeaderMap(h)[k]]);
    }
  }
}
