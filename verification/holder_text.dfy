/** The string functions of the holder-count watcher: the bot's short label
    (`Holders.label`) and the decimal rendering of a holder count (`%d`).

    A Go string is a sequence of bytes; here each `char` stands for one byte,
    and lowercasing is the ASCII mapping of `strings.ToLower`. */
module HolderText {
  import opened Wrappers

  /** Longest label the watcher derives from its identity. */
  const MaxLabel: nat := 32

  predicate IsUpper(c: char) { 'A' <= c <= 'Z' }

  /** ASCII lowercasing of one character. */
  function LowerChar(c: char): (r: char)
    ensures !IsUpper(r)
    ensures !IsUpper(c) ==> r == c
    ensures IsUpper(c) ==> 'a' <= r <= 'z' && r as int - c as int == 'a' as int - 'A' as int
  {
    if IsUpper(c) then (c as int - 'A' as int + 'a' as int) as char else c
  }

  /** `strings.ToLower`, character by character. */
  function Lower(s: string): (r: string)
    ensures |r| == |s|
    ensures forall i :: 0 <= i < |s| ==> r[i] == LowerChar(s[i])
  {
    if s == [] then [] else [LowerChar(s[0])] + Lower(s[1..])
  }

  /** The metric series name of a watcher: `network-address`, as written. */
  function Ticker(network: string, address: string): (r: string)
    ensures |r| == |network| + 1 + |address|
    ensures r[..|network|] == network && r[|network|] == '-' && r[|network| + 1..] == address
  {
    network + "-" + address
  }

  /** `Holders.label`: the lowercased ticker, cut to its first 32 bytes. */
  function Label(network: string, address: string): string
  {
    var lowered := Lower(Ticker(network, address));
    if |lowered| > MaxLabel then lowered[..MaxLabel] else lowered
  }

  /** The label is at most 32 bytes long, has no uppercase letter, and is a
      prefix of the lowercased ticker: all of it exactly when the ticker fits,
      its first 32 bytes otherwise. */
  lemma LabelShape(network: string, address: string)
    ensures var r, full := Label(network, address), Lower(Ticker(network, address));
      && |r| <= MaxLabel
      && r <= full
      && (r == full <==> |Ticker(network, address)| <= MaxLabel)
      && |r| == (if |Ticker(network, address)| <= MaxLabel then |Ticker(network, address)| else MaxLabel)
      && forall i :: 0 <= i < |r| ==> !IsUpper(r[i])
  {
  }

  /** The label is not an identity: case and truncation both make distinct
      (network, address) pairs collide. */
  lemma LabelCollides()
    ensures Label("eth", "0xAB") == Label("ETH", "0xab")
    ensures var long := "0x0123456789abcdef0123456789";
            Label("eth", long + "0") == Label("eth", long + "1")
  {
    var long := "0x0123456789abcdef0123456789";
    assert |Ticker("eth", long + "0")| > MaxLabel;
    assert Ticker("eth", long + "0")[..MaxLabel] == Ticker("eth", long + "1")[..MaxLabel];
    assert Lower(Ticker("eth", long + "0"))[..MaxLabel] == Lower(Ticker("eth", long + "1"))[..MaxLabel];
    assert Lower(Ticker("eth", "0xAB")) == Lower(Ticker("ETH", "0xab"));
  }

  // ---------------------------------------------------------------------
  // Decimal rendering of a holder count, `fmt.Sprintf("%d", n)`.

  predicate IsDigit(c: char) { '0' <= c <= '9' }

  predicate AllDigits(s: string) { forall i :: 0 <= i < |s| ==> IsDigit(s[i]) }

  function DigitChar(d: nat): (c: char)
    requires d < 10
    ensures IsDigit(c)
  {
    ('0' as int + d) as char
  }

  function DigitValue(c: char): (d: nat)
    requires IsDigit(c)
    ensures d < 10 && DigitChar(d) == c
  {
    c as int - '0' as int
  }

  /** The digits of a natural number, most significant first. */
  function Digits(n: nat): string
    decreases n
  {
    if n < 10 then [DigitChar(n)] else Digits(n / 10) + [DigitChar(n % 10)]
  }

  /** The digits are a non-empty string of decimal digits without a leading
      zero. */
  lemma {:induction false} DigitsShape(n: nat)
    ensures Digits(n) != [] && AllDigits(Digits(n))
    ensures Digits(n)[0] == '0' ==> n == 0
    decreases n
  {
    if n >= 10 {
      DigitsShape(n / 10);
      var d := Digits(n / 10);
      assert Digits(n) == d + [DigitChar(n % 10)];
      assert Digits(n)[0] == d[0];
    }
  }

  /** `%d` of a Go int: a minus sign for negative numbers, then the digits. */
  function Decimal(n: int): string
  {
    if n < 0 then "-" + Digits(-n) else Digits(n)
  }

  /** The rendering is never empty, starts with a minus sign exactly for
      negative numbers, and is digits otherwise. */
  lemma DecimalShape(n: int)
    ensures Decimal(n) != []
    ensures Decimal(n)[0] == '-' <==> n < 0
    ensures AllDigits(if n < 0 then Decimal(n)[1..] else Decimal(n))
  {
    if n < 0 {
      DigitsShape(-n);
      assert Decimal(n)[1..] == Digits(-n);
    } else {
      DigitsShape(n);
      assert IsDigit(Decimal(n)[0]);
    }
  }

  /** The value of a string of decimal digits. */
  function DigitsValue(s: string): nat
    requires AllDigits(s)
  {
    if s == [] then 0 else DigitsValue(s[..|s| - 1]) * 10 + DigitValue(s[|s| - 1])
  }

  /** Reads a decimal integer back: the inverse of `Decimal`. */
  function ParseDecimal(s: string): Option<int>
  {
    if s == [] then None
    else if s[0] == '-' then
      if |s| > 1 && AllDigits(s[1..]) then Some(0 - DigitsValue(s[1..]) as int) else None
    else if AllDigits(s) then Some(DigitsValue(s))
    else None
  }

  lemma {:induction false} DigitsValueOfDigits(n: nat)
    ensures AllDigits(Digits(n)) && DigitsValue(Digits(n)) == n
    decreases n
  {
    DigitsShape(n);
    var d := Digits(n);
    if n >= 10 {
      DigitsValueOfDigits(n / 10);
      assert d[..|d| - 1] == Digits(n / 10);
    }
  }

  /** Rendering a count and reading it back gives the count. */
  lemma {:induction false} DecimalRoundTrip(n: int)
    ensures ParseDecimal(Decimal(n)) == Some(n)
  {
    if n < 0 {
      var d := Digits(-n);
      DigitsShape(-n);
      DigitsValueOfDigits(-n);
      assert Decimal(n) == "-" + d;
      assert ("-" + d)[1..] == d;
    } else {
      var d := Digits(n);
      DigitsShape(n);
      DigitsValueOfDigits(n);
      assert Decimal(n) == d;
      assert IsDigit(d[0]);
    }
  }

  /** Distinct counts are displayed differently. */
  lemma {:induction false} DecimalInjective(m: int, n: int)
    ensures Decimal(m) == Decimal(n) ==> m == n
  {
    DecimalRoundTrip(m);
    DecimalRoundTrip(n);
  }
}
