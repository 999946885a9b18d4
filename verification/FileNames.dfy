/** Names of delta and snapshot files, and the order of names that loading relies on. */
module FileNames {

  import opened Basics

  // ------------------------------------------------------------------ order of strings

  /** Byte-wise lexicographic order, as `std::string` compares. */
  predicate Less(a: string, b: string) {
    if b == [] then false
    else if a == [] then true
    else a[0] < b[0] || (a[0] == b[0] && Less(a[1..], b[1..]))
  }

  lemma {:induction false} LessIsStrictOrder(a: string, b: string, c: string)
    ensures !Less(a, a)
    ensures Less(a, b) && Less(b, c) ==> Less(a, c)
    ensures Less(a, b) || a == b || Less(b, a)
  {
    if a != [] && b != [] {
      LessIsStrictOrder(a[1..], b[1..], if c == [] then c else c[1..]);
      assert a == [a[0]] + a[1..] && b == [b[0]] + b[1..];
    } else if a != [] {
      LessIsStrictOrder(a[1..], b, c);
    }
  }

  /** Common prefixes do not matter. */
  lemma {:induction false} LessPrefix(p: string, a: string, b: string)
    ensures Less(p + a, p + b) <==> Less(a, b)
  {
    if p == [] {
      assert p + a == a && p + b == b;
    } else {
      LessPrefix(p[1..], a, b);
      assert (p + a)[1..] == p[1..] + a && (p + b)[1..] == p[1..] + b;
    }
  }

  /** Between strings of one length the last character decides only when all before it agree. */
  lemma {:induction false} LessSnoc(a: string, x: char, b: string, y: char)
    requires |a| == |b|
    ensures Less(a + [x], b + [y]) <==> Less(a, b) || (a == b && x < y)
  {
    if a != [] {
      LessSnoc(a[1..], x, b[1..], y);
      assert (a + [x])[1..] == a[1..] + [x] && (b + [y])[1..] == b[1..] + [y];
      assert a == [a[0]] + a[1..] && b == [b[0]] + b[1..];
    }
  }

  // ------------------------------------------------------------------------ file names

  const DELTA_PREFIX := "DELTA"
  const SNAPSHOT_PREFIX := "SNAPSHOT"
  const FILE_COMPONENT_DELIMITER := "_"
  const LOGICAL_TIME_DIGITS: nat := 16
  const TWO_TO_THE_64 := 0x1_0000_0000_0000_0000
  const TWO_TO_THE_63 := 0x8000_0000_0000_0000

  predicate IsDigit(c: char) {
    '0' <= c <= '9'
  }

  predicate AllDigits(s: string) {
    forall i :: 0 <= i < |s| ==> IsDigit(s[i])
  }

  predicate MatchesFormat(prefix: string, s: string) {
    var head := prefix + FILE_COMPONENT_DELIMITER;
    head <= s && |s| == |head| + LOGICAL_TIME_DIGITS && AllDigits(s[|head|..])
  }

  predicate IsDeltaFilename(s: string) {
    MatchesFormat(DELTA_PREFIX, s)
  }

  predicate IsSnapshotFilename(s: string) {
    MatchesFormat(SNAPSHOT_PREFIX, s)
  }

  /** The two kinds of names, written out. */
  lemma {:induction false} NameFormats(s: string)
    ensures IsDeltaFilename(s) <==>
            "DELTA_" <= s && |s| == 22 && forall i :: 6 <= i < 22 ==> '0' <= s[i] <= '9'
    ensures IsSnapshotFilename(s) <==>
            "SNAPSHOT_" <= s && |s| == 25 && forall i :: 9 <= i < 25 ==> '0' <= s[i] <= '9'
  {
    assert DELTA_PREFIX + FILE_COMPONENT_DELIMITER == "DELTA_";
    assert SNAPSHOT_PREFIX + FILE_COMPONENT_DELIMITER == "SNAPSHOT_";
    if |s| == 22 {
      assert forall i :: 6 <= i < 22 ==> s[i] == s[6..][i - 6];
    }
    if |s| == 25 {
      assert forall i :: 9 <= i < 25 ==> s[i] == s[9..][i - 9];
    }
  }

  function Digit(d: nat): char
    requires d < 10
  {
    '0' + d as char
  }

  function Decimal(n: nat): (s: string)
    ensures s != []
  {
    if n < 10 then [Digit(n)] else Decimal(n / 10) + [Digit(n % 10)]
  }

  function Zeros(n: int): string {
    if n <= 0 then [] else "0" + Zeros(n - 1)
  }

  /** A decimal number in a field of at least `width` characters, filled up with zeros; a
      minus sign takes one of them. */
  function Format(n: int, width: nat): string {
    if n >= 0 then Zeros(width - |Decimal(n)|) + Decimal(n)
    else "-" + Zeros(width - 1 - |Decimal(-n)|) + Decimal(-n)
  }

  function ToInt64(n: nat): int
    requires n < TWO_TO_THE_64
  {
    if n < TWO_TO_THE_63 then n else n - TWO_TO_THE_64
  }

  function GetFilename(prefix: string, time: int): string {
    prefix + FILE_COMPONENT_DELIMITER + Format(time, LOGICAL_TIME_DIGITS)
  }

  function ToDeltaFileName(time: nat): Result<string>
    requires time < TWO_TO_THE_64
  {
    var name := GetFilename(DELTA_PREFIX, ToInt64(time));
    if IsDeltaFilename(name) then Ok(name) else Error(INVALID_ARGUMENT)
  }

  // ------------------------------------------------------------------ fixed-width numbers

  function Pow10(w: nat): nat {
    if w == 0 then 1 else 10 * Pow10(w - 1)
  }

  /** The last `w` decimal digits of `n`. */
  function Digits(n: nat, w: nat): (s: string)
    ensures |s| == w
  {
    if w == 0 then [] else Digits(n / 10, w - 1) + [Digit(n % 10)]
  }

  /** The number that a string of digits denotes. */
  function Value(s: string): nat
    requires AllDigits(s)
  {
    if s == [] then 0 else Value(s[..|s| - 1]) * 10 + (s[|s| - 1] - '0') as nat
  }

  lemma {:induction false} DigitsAreDigits(n: nat, w: nat)
    ensures AllDigits(Digits(n, w))
  {
    if w > 0 {
      DigitsAreDigits(n / 10, w - 1);
    }
  }

  lemma {:induction false} DigitsOfZero(w: nat)
    ensures Digits(0, w) == Zeros(w)
  {
    if w > 0 {
      DigitsOfZero(w - 1);
      ZerosSnoc(w - 1);
    }
  }

  lemma {:induction false} ZerosSnoc(n: nat)
    ensures Zeros(n) + "0" == Zeros(n + 1)
  {
    if n > 0 {
      ZerosSnoc(n - 1);
      assert Zeros(n) + "0" == "0" + (Zeros(n - 1) + "0");
    }
  }

  /** Padding with zeros to a width the number fits in gives its fixed-width digits. */
  lemma {:induction false} FormatFits(n: nat, w: nat)
    requires n < Pow10(w) && w > 0
    ensures |Decimal(n)| <= w
    ensures Format(n, w) == Digits(n, w)
  {
    if n < 10 {
      DigitsOfZero(w - 1);
    } else {
      assert n / 10 < Pow10(w - 1);
      FormatFits(n / 10, w - 1);
      var zeros := Zeros(w - |Decimal(n)|);
      assert zeros + (Decimal(n / 10) + [Digit(n % 10)]) == (zeros + Decimal(n / 10)) + [Digit(n % 10)];
    }
  }

  lemma {:induction false} DecimalTooLong(n: nat, w: nat)
    requires n >= Pow10(w)
    ensures |Decimal(n)| > w
  {
    if w > 0 {
      DecimalTooLong(n / 10, w - 1);
    }
  }

  /** Fixed-width digits order as the numbers do. */
  lemma {:induction false} DigitsKeepOrder(n: nat, m: nat, w: nat)
    requires n < Pow10(w) && m < Pow10(w)
    ensures Less(Digits(n, w), Digits(m, w)) <==> n < m
    ensures Digits(n, w) == Digits(m, w) <==> n == m
  {
    if w > 0 {
      var a, b := Digits(n / 10, w - 1), Digits(m / 10, w - 1);
      DigitsKeepOrder(n / 10, m / 10, w - 1);
      LessSnoc(a, Digit(n % 10), b, Digit(m % 10));
      assert (a + [Digit(n % 10)])[..w - 1] == a && (b + [Digit(m % 10)])[..w - 1] == b;
      assert (a + [Digit(n % 10)])[w - 1] == Digit(n % 10) && (b + [Digit(m % 10)])[w - 1] == Digit(m % 10);
    }
  }

  lemma {:induction false} DigitsOfValue(s: string)
    requires AllDigits(s)
    ensures Value(s) < Pow10(|s|)
    ensures Digits(Value(s), |s|) == s
  {
    if s != [] {
      var n := |s| - 1;
      DigitsOfValue(s[..n]);
      assert s == s[..n] + [s[n]];
    }
  }

  // ---------------------------------------------------------------------------- theorems

  lemma {:induction false} PowerOf16()
    ensures Pow10(LOGICAL_TIME_DIGITS) == 1_0000_0000_0000_0000
  {
    assert Pow10(4) == 1_0000;
    assert Pow10(8) == 1_0000_0000;
    assert Pow10(12) == 1_0000_0000_0000;
  }

  /** A delta file name can be built exactly for commit times of at most 16 digits. */
  lemma {:induction false} NameExists(time: nat)
    requires time < TWO_TO_THE_64
    ensures ToDeltaFileName(time).Ok? <==> time < 1_0000_0000_0000_0000
    ensures ToDeltaFileName(time).Ok? ==> ToDeltaFileName(time).value == "DELTA_" + Digits(time, 16)
  {
    PowerOf16();
    var n := ToInt64(time);
    var field := Format(n, 16);
    var name := GetFilename(DELTA_PREFIX, n);
    assert name == "DELTA_" + field;
    assert name[6..] == field;
    if time < 1_0000_0000_0000_0000 {
      FormatFits(time, 16);
      DigitsAreDigits(time, 16);
    } else if n >= 0 {
      DecimalTooLong(time, 16);
    } else {
      assert !IsDigit(field[0]);
    }
  }

  /** Names are unique and order as the commit times do. */
  lemma {:induction false} NamesKeepOrder(a: nat, b: nat)
    requires a < TWO_TO_THE_64 && b < TWO_TO_THE_64
    requires ToDeltaFileName(a).Ok? && ToDeltaFileName(b).Ok?
    ensures Less(ToDeltaFileName(a).value, ToDeltaFileName(b).value) <==> a < b
    ensures ToDeltaFileName(a).value == ToDeltaFileName(b).value <==> a == b
  {
    NameExists(a);
    NameExists(b);
    PowerOf16();
    DigitsKeepOrder(a, b, 16);
    LessPrefix("DELTA_", Digits(a, 16), Digits(b, 16));
    assert ("DELTA_" + Digits(a, 16))[6..] == Digits(a, 16);
    assert ("DELTA_" + Digits(b, 16))[6..] == Digits(b, 16);
  }

  /** Every string in delta file format is the name for one commit time. */
  lemma {:induction false} EveryDeltaNameIsBuilt(s: string)
    requires IsDeltaFilename(s)
    ensures Value(s[6..]) < TWO_TO_THE_64 && ToDeltaFileName(Value(s[6..])) == Ok(s)
  {
    PowerOf16();
    DigitsOfValue(s[6..]);
    NameExists(Value(s[6..]));
    assert s == "DELTA_" + s[6..];
  }
}
