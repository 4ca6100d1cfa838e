/**
  * Names of the numbered log files: the `%06u.txt` formatting of `getName`
  * and the `atoi` parse that the directory scan applies to every entry.
  */
module FileNames {

  /** Number of values of a 32-bit `unsigned`: `%u` prints its argument modulo this. */
  const UINT_RANGE: int := 0x1_0000_0000

  /** Minimum field width of `%06u`. */
  const NAME_DIGITS: nat := 6

  /** The scan reads entry names into `char name[64]`: at most 63 characters survive. */
  const SCAN_NAME_MAX: nat := 63

  const EXTENSION: string := ".txt"

  function Pow10(w: nat): (p: nat)
    ensures p >= 1
  {
    if w == 0 then 1 else 10 * Pow10(w - 1)
  }

  lemma Pow10Values()
    ensures Pow10(6) == 1000000 && Pow10(10) == 10000000000
  {
    assert Pow10(1) == 10;
    assert Pow10(2) == 100;
    assert Pow10(3) == 1000;
    assert Pow10(4) == 10000;
    assert Pow10(5) == 100000;
    assert Pow10(6) == 1000000;
    assert Pow10(7) == 10000000;
    assert Pow10(8) == 100000000;
    assert Pow10(9) == 1000000000;
  }

  predicate IsDigit(c: char) {
    '0' <= c <= '9'
  }

  /** `isspace` in the C locale: space, tab, line feed, vertical tab, form feed, carriage return. */
  predicate IsSpace(c: char) {
    c == ' ' || '\t' <= c <= '\r'
  }

  predicate AllDigits(s: string) {
    forall i | 0 <= i < |s| :: IsDigit(s[i])
  }

  function DigitChar(d: nat): (c: char)
    requires d < 10
    ensures IsDigit(c) && c as int - '0' as int == d
  {
    ('0' as int + d) as char
  }

  /** The value of a decimal digit (any other character counts as 0). */
  function DigitValue(c: char): nat {
    if IsDigit(c) then c as int - '0' as int else 0
  }

  /** The number a string of decimal digits denotes (most significant first). */
  function ValueOf(s: string): nat {
    if s == [] then 0 else 10 * ValueOf(s[..|s| - 1]) + DigitValue(s[|s| - 1])
  }

  /**
    * `printf("%0<w>u", u)`: the decimal digits of `u`, left-padded with '0'
    * to at least `w` characters (zero itself prints as "0").
    */
  function Decimal(u: nat, w: nat): string
    decreases u, w
  {
    if u < 10 && w <= 1 then [DigitChar(u)]
    else Decimal(u / 10, if w == 0 then 0 else w - 1) + [DigitChar(u % 10)]
  }

  /** The first `n` characters of `s` (all of `s` when it is shorter). */
  function Prefix(s: string, n: nat): string {
    if |s| <= n then s else s[..n]
  }

  /**
    * `getName(num)`: `snprintf(nameBuf, sizeof(nameBuf), "%06u.txt", num)`.
    * `%u` reads the `int` as unsigned (two's complement), and `snprintf`
    * keeps at most `sizeof(nameBuf) - 1` characters.
    */
  function GetName(num: int, nameBufSize: nat): string
    requires nameBufSize >= 1
  {
    Prefix(Decimal(num % UINT_RANGE, NAME_DIGITS) + EXTENSION, nameBufSize - 1)
  }

  /** The white space `atoi` skips before the number. */
  function SkipSpace(s: string): string {
    if s != [] && IsSpace(s[0]) then SkipSpace(s[1..]) else s
  }

  /** The digit loop of `atoi`: fold the leading digits of `s` into `acc`, stopping at the first non-digit. */
  function DigitsFrom(s: string, acc: nat): nat {
    if s != [] && IsDigit(s[0]) then DigitsFrom(s[1..], 10 * acc + DigitValue(s[0])) else acc
  }

  /**
    * C's `atoi`: skip leading white space, accept one optional sign, then
    * read decimal digits up to the first non-digit; no digits gives 0.
    */
  function Atoi(s: string): int {
    var t := SkipSpace(s);
    if t != [] && t[0] == '-' then -(DigitsFrom(t[1..], 0) as int)
    else if t != [] && t[0] == '+' then DigitsFrom(t[1..], 0)
    else DigitsFrom(t, 0)
  }

  /** The number the scan takes from a directory entry: `atoi` of the name as read into `name[64]`. */
  function ScannedNumber(entry: string): int {
    Atoi(Prefix(entry, SCAN_NAME_MAX))
  }

  /** Lexicographic order of names, character by character (a proper prefix comes first). */
  predicate LexLess(a: string, b: string) {
    if a == [] then b != []
    else b != [] && (a[0] < b[0] || (a[0] == b[0] && LexLess(a[1..], b[1..])))
  }

  // ---------------------------------------------------------------------
  // Lemmas about the digits of a number

  /** `%0<w>u` prints at least one character, and only digits. */
  lemma {:induction false} DecimalDigits(u: nat, w: nat)
    ensures |Decimal(u, w)| >= 1 && AllDigits(Decimal(u, w))
    decreases u, w
  {
    if !(u < 10 && w <= 1) {
      DecimalDigits(u / 10, if w == 0 then 0 else w - 1);
    }
  }

  /** Reading back the digits `%0<w>u` printed gives `u`: the padding zeros add nothing. */
  lemma {:induction false} DecimalValue(u: nat, w: nat)
    ensures ValueOf(Decimal(u, w)) == u
    decreases u, w
  {
    if u < 10 && w <= 1 {
    } else {
      var w' := if w == 0 then 0 else w - 1;
      DecimalValue(u / 10, w');
      var s := Decimal(u, w);
      assert s[..|s| - 1] == Decimal(u / 10, w');
    }
  }

  /** A number below 10^w fills exactly `w` digits of `%0<w>u`. */
  lemma {:induction false} DecimalWidth(u: nat, w: nat)
    requires w >= 1 && u < Pow10(w)
    ensures |Decimal(u, w)| == w
  {
    if w > 1 {
      assert u / 10 < Pow10(w - 1);
      DecimalWidth(u / 10, w - 1);
    }
  }

  /** A number below 10^d never prints wider than `d` digits for a width `w <= d`. */
  lemma {:induction false} DecimalAtMost(u: nat, w: nat, d: nat)
    requires 1 <= d && w <= d && u < Pow10(d)
    ensures |Decimal(u, w)| <= d
    decreases u, w
  {
    if u < 10 && w <= 1 {
    } else {
      var w' := if w == 0 then 0 else w - 1;
      assert d != 1;
      assert u / 10 < Pow10(d - 1);
      DecimalAtMost(u / 10, w', d - 1);
    }
  }

  lemma {:induction false} DecimalInjective(u: nat, v: nat, w: nat)
    ensures Decimal(u, w) == Decimal(v, w) <==> u == v
  {
    DecimalValue(u, w);
    DecimalValue(v, w);
  }

  /**
    * What `snprintf` leaves in `nameBuf`: fewer than `sizeof(nameBuf)`
    * characters, a prefix of the full `%06u.txt` text, and all of it when
    * it fits.
    */
  lemma GetNameBounds(num: int, nameBufSize: nat)
    requires nameBufSize >= 1
    ensures var full := Decimal(num % UINT_RANGE, NAME_DIGITS) + EXTENSION;
      && |GetName(num, nameBufSize)| < nameBufSize
      && GetName(num, nameBufSize) == full[..|GetName(num, nameBufSize)|]
      && (|full| < nameBufSize ==> GetName(num, nameBufSize) == full)
  {
  }

  /** A name that fits: six zero-padded digits and the extension, for 0 <= n < 1000000. */
  lemma ShortName(n: int, nameBufSize: nat)
    requires 0 <= n < 1000000 && nameBufSize >= 11
    ensures |Decimal(n, NAME_DIGITS)| == 6
    ensures GetName(n, nameBufSize) == Decimal(n, NAME_DIGITS) + EXTENSION
  {
    Pow10Values();
    DecimalWidth(n, NAME_DIGITS);
    assert n % UINT_RANGE == n;
  }

  // ---------------------------------------------------------------------
  // Lemmas about atoi

  /** Putting a digit in front adds its value times the weight of its position. */
  lemma {:induction false} ValueOfCons(c: char, d: string)
    ensures ValueOf([c] + d) == DigitValue(c) * Pow10(|d|) + ValueOf(d)
    decreases |d|
  {
    if d != [] {
      var d0 := d[..|d| - 1];
      assert ([c] + d)[..|d|] == [c] + d0;
      assert ([c] + d)[|d|] == d[|d| - 1];
      ValueOfCons(c, d0);
      calc {
        ValueOf([c] + d);
        10 * ValueOf([c] + d0) + DigitValue(d[|d| - 1]);
        10 * (DigitValue(c) * Pow10(|d0|) + ValueOf(d0)) + DigitValue(d[|d| - 1]);
        { assert 10 * (DigitValue(c) * Pow10(|d0|)) == DigitValue(c) * (10 * Pow10(|d0|)); }
        DigitValue(c) * Pow10(|d|) + ValueOf(d);
      }
    }
  }

  /** Shifting in one more digit: (10 * acc + x) * p == acc * (10 * p) + x * p. */
  lemma ShiftDigit(acc: int, x: int, p: int)
    ensures (10 * acc + x) * p == acc * (10 * p) + x * p
  {
    calc {
      (10 * acc + x) * p;
      (10 * acc) * p + x * p;
      acc * (10 * p) + x * p;
    }
  }

  /** The digit loop over a digit string followed by a non-digit (or nothing) consumes exactly that string. */
  lemma {:induction false} DigitsFromOfDigits(d: string, rest: string, acc: nat)
    requires AllDigits(d)
    requires rest == [] || !IsDigit(rest[0])
    ensures DigitsFrom(d + rest, acc) == acc * Pow10(|d|) + ValueOf(d)
    decreases |d|
  {
    if d == [] {
      assert d + rest == rest;
    } else {
      var c, t := d[0], d[1..];
      var acc', p := 10 * acc + DigitValue(c), Pow10(|t|);
      assert (d + rest)[0] == c && (d + rest)[1..] == t + rest;
      assert DigitsFrom(d + rest, acc) == DigitsFrom(t + rest, acc');
      DigitsFromOfDigits(t, rest, acc');
      assert d == [c] + t;
      ValueOfCons(c, t);
      assert Pow10(|d|) == 10 * p;
      ShiftDigit(acc, DigitValue(c), p);
    }
  }

  /** `atoi` of a digit string followed by a non-digit (or nothing) is that string's value. */
  lemma AtoiOfDigits(d: string, rest: string)
    requires d != [] && AllDigits(d)
    requires rest == [] || !IsDigit(rest[0])
    ensures Atoi(d + rest) == ValueOf(d)
  {
    assert (d + rest)[0] == d[0];
    assert SkipSpace(d + rest) == d + rest;
    DigitsFromOfDigits(d, rest, 0);
  }

  /**
    * Parsing a name that `getName` produced gives back the unsigned value
    * `%u` printed, provided `nameBuf` kept all of its digits: a number in
    * [0, 2^32) comes back unchanged, a negative one comes back as num + 2^32.
    */
  lemma NameParsesBack(num: int, nameBufSize: nat)
    requires nameBufSize >= 1
    requires |Decimal(num % UINT_RANGE, NAME_DIGITS)| < nameBufSize
    ensures ScannedNumber(GetName(num, nameBufSize)) == num % UINT_RANGE
  {
    var u := num % UINT_RANGE;
    var d := Decimal(u, NAME_DIGITS);
    Pow10Values();
    DecimalAtMost(u, NAME_DIGITS, 10);
    DecimalDigits(u, NAME_DIGITS);
    GetNameBounds(num, nameBufSize);
    var name := GetName(num, nameBufSize);
    var full := d + EXTENSION;
    assert |d| <= |name| <= |full|;
    var rest := full[|d|..|name|];
    assert name == d + rest;
    assert rest == [] || rest[0] == '.';
    assert Prefix(name, SCAN_NAME_MAX) == name;
    AtoiOfDigits(d, rest);
    DecimalValue(u, NAME_DIGITS);
  }

  /** For 0 <= n < 1000000, `getName(n)` is six zero-padded digits of n followed by ".txt". */
  lemma NameFormat(n: int, nameBufSize: nat)
    requires 0 <= n < 1000000 && nameBufSize >= 11
    ensures var name := GetName(n, nameBufSize);
      && |name| == 10 && AllDigits(name[..6]) && name[6..] == EXTENSION
      && ValueOf(name[..6]) == n
  {
    ShortName(n, nameBufSize);
    DecimalDigits(n, NAME_DIGITS);
    DecimalValue(n, NAME_DIGITS);
    var d := Decimal(n, NAME_DIGITS);
    assert (d + EXTENSION)[..6] == d;
    assert (d + EXTENSION)[6..] == EXTENSION;
  }

  /** The round trip the scan relies on: for 0 <= n < 1000000, atoi(getName(n)) == n. */
  lemma NameRoundTrip(n: int, nameBufSize: nat)
    requires 0 <= n < 1000000 && nameBufSize >= 7
    ensures ScannedNumber(GetName(n, nameBufSize)) == n
  {
    Pow10Values();
    assert n % UINT_RANGE == n;
    DecimalWidth(n, NAME_DIGITS);
    NameParsesBack(n, nameBufSize);
  }

  // ---------------------------------------------------------------------
  // Lemmas about the order of names

  lemma {:induction false} LexIrreflexive(a: string)
    ensures !LexLess(a, a)
  {
    if a != [] {
      LexIrreflexive(a[1..]);
    }
  }

  /** Names whose heads have equal length compare by their heads first, then by their tails. */
  lemma {:induction false} LexAppend(p: string, q: string, x: string, y: string)
    requires |p| == |q|
    ensures LexLess(p + x, q + y) <==> LexLess(p, q) || (p == q && LexLess(x, y))
  {
    if p == [] {
      assert p + x == x && q + y == y;
    } else {
      assert (p + x)[1..] == p[1..] + x;
      assert (q + y)[1..] == q[1..] + y;
      LexAppend(p[1..], q[1..], x, y);
      if p[0] == q[0] {
        assert p == q <==> p[1..] == q[1..] by {
          if p[1..] == q[1..] {
            assert p == [p[0]] + p[1..] && q == [q[0]] + q[1..];
          }
        }
      }
    }
  }

  /** Fixed-width decimal strings sort exactly as the numbers they denote. */
  lemma {:induction false} DecimalOrder(u: nat, v: nat, w: nat)
    requires w >= 1 && u < Pow10(w) && v < Pow10(w)
    ensures LexLess(Decimal(u, w), Decimal(v, w)) <==> u < v
  {
    if w == 1 {
      assert Decimal(u, w) == [DigitChar(u)];
      assert Decimal(v, w) == [DigitChar(v)];
      assert LexLess([DigitChar(u)], [DigitChar(v)]) <==> DigitChar(u) < DigitChar(v) by {
        assert [DigitChar(u)][1..] == [];
        assert [DigitChar(v)][1..] == [];
      }
    } else {
      var hu, hv := Decimal(u / 10, w - 1), Decimal(v / 10, w - 1);
      assert u / 10 < Pow10(w - 1) && v / 10 < Pow10(w - 1);
      DecimalWidth(u / 10, w - 1);
      DecimalWidth(v / 10, w - 1);
      DecimalOrder(u / 10, v / 10, w - 1);
      DecimalInjective(u / 10, v / 10, w - 1);
      LexAppend(hu, hv, [DigitChar(u % 10)], [DigitChar(v % 10)]);
      assert LexLess([DigitChar(u % 10)], [DigitChar(v % 10)]) <==> u % 10 < v % 10 by {
        assert [DigitChar(u % 10)][1..] == [];
        assert [DigitChar(v % 10)][1..] == [];
      }
    }
  }

  /**
    * For file numbers in [0, 1000000), lexicographic order of the names
    * equals numeric order, and distinct numbers get distinct names.
    */
  lemma NameOrder(a: int, b: int, nameBufSize: nat)
    requires 0 <= a < 1000000 && 0 <= b < 1000000 && nameBufSize >= 11
    ensures LexLess(GetName(a, nameBufSize), GetName(b, nameBufSize)) <==> a < b
    ensures GetName(a, nameBufSize) == GetName(b, nameBufSize) <==> a == b
  {
    Pow10Values();
    var da, db := Decimal(a, NAME_DIGITS), Decimal(b, NAME_DIGITS);
    ShortName(a, nameBufSize);
    ShortName(b, nameBufSize);
    DecimalOrder(a, b, NAME_DIGITS);
    DecimalInjective(a, b, NAME_DIGITS);
    LexAppend(da, db, EXTENSION, EXTENSION);
    LexIrreflexive(EXTENSION);
    if da + EXTENSION == db + EXTENSION {
      assert da == (da + EXTENSION)[..6] == (db + EXTENSION)[..6] == db;
    }
  }
}
