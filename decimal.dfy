/** Text-to-number conversions the main window relies on: the "%i" formatting of
    the port into a ten-character buffer, C's atoi on the port edit box, and
    GetWindowTextA's MAX_PATH truncation. */
module Decimal {

  /** Size of the buffer the constructor formats the port into. */
  const PortBufferSize: nat := 10
  /** MAX_PATH, the size of the buffer GetWindowText copies an edit box into. */
  const MaxPath: nat := 260

  predicate IsDigit(c: char) { '0' <= c <= '9' }

  /** The characters C's isspace accepts in the "C" locale. */
  predicate IsSpace(c: char) {
    c == ' ' || c == '\t' || c == '\n' || c == '\U{0B}' || c == '\U{0C}' || c == '\r'
  }

  function DigitValue(c: char): (d: nat)
    requires IsDigit(c)
    ensures d < 10
  {
    c as int - '0' as int
  }

  function DigitChar(d: nat): (c: char)
    requires d < 10
    ensures IsDigit(c) && DigitValue(c) == d
  {
    ('0' as int + d) as char
  }

  predicate AllDigits(s: string) {
    forall i :: 0 <= i < |s| ==> IsDigit(s[i])
  }

  /** The number a string of decimal digits denotes. */
  function ValueOf(s: string): nat
    requires AllDigits(s)
  {
    if s == [] then 0 else 10 * ValueOf(s[..|s| - 1]) + DigitValue(s[|s| - 1])
  }

  /** Decimal digits of n, most significant first, no leading zeros. */
  function FormatNat(n: nat): (s: string)
    ensures |s| >= 1 && AllDigits(s)
  {
    if n < 10 then [DigitChar(n)] else FormatNat(n / 10) + [DigitChar(n % 10)]
  }

  /** What "%i" prints for n. */
  function FormatInt(n: int): string {
    if n < 0 then "-" + FormatNat(-n) else FormatNat(n)
  }

  /** The port text the constructor builds: "%i" into a buffer of
      PortBufferSize characters, so at most PortBufferSize - 1 are kept. */
  function PortText(port: int): (s: string)
    ensures |s| <= PortBufferSize - 1
  {
    var full := FormatInt(port);
    if |full| < PortBufferSize then full else full[..PortBufferSize - 1]
  }

  /** What GetWindowTextA copies out of a control holding `text` into a
      MAX_PATH buffer. */
  function WindowText(text: string): (s: string)
    ensures |s| < MaxPath
    ensures |text| < MaxPath ==> s == text
    ensures s <= text
  {
    if |text| < MaxPath then text else text[..MaxPath - 1]
  }

  /** Number of leading characters of s that are decimal digits. */
  function DigitRun(s: string): (n: nat)
    ensures n <= |s| && AllDigits(s[..n])
    ensures n < |s| ==> !IsDigit(s[n])
  {
    if s == [] || !IsDigit(s[0]) then 0
    else
      var rest := DigitRun(s[1..]);
      assert s[..1 + rest] == [s[0]] + s[1..][..rest];
      1 + rest
  }

  /** s without its leading white space. */
  function TrimStart(s: string): (t: string)
    ensures |t| <= |s| && t == s[|s| - |t|..]
    ensures forall i :: 0 <= i < |s| - |t| ==> IsSpace(s[i])
    ensures t == [] || !IsSpace(t[0])
  {
    if s != [] && IsSpace(s[0]) then
      var t := TrimStart(s[1..]);
      assert forall i :: 1 <= i < |s| - |t| ==> s[i] == s[1..][i - 1];
      t
    else s
  }

  /** C's atoi: skip white space, take an optional sign, then the longest run
      of digits; anything after the run is ignored and no digits give 0. */
  function Atoi(s: string): int {
    var t := TrimStart(s);
    if t != [] && (t[0] == '-' || t[0] == '+') then
      var magnitude: int := ValueOf(t[1..][..DigitRun(t[1..])]);
      if t[0] == '-' then -magnitude else magnitude
    else
      ValueOf(t[..DigitRun(t)])
  }

  lemma {:induction false} ValueOfFormatNat(n: nat)
    ensures ValueOf(FormatNat(n)) == n
  {
    var s := FormatNat(n);
    if n >= 10 {
      ValueOfFormatNat(n / 10);
      assert s[..|s| - 1] == FormatNat(n / 10);
    }
  }

  lemma DigitRunOfDigits(s: string)
    requires AllDigits(s)
    ensures DigitRun(s) == |s|
  {
    if s != [] { DigitRunOfDigits(s[1..]); }
  }

  /** atoi of a run of digits, with or without a minus sign in front. */
  lemma AtoiDigits(digits: string)
    requires |digits| >= 1 && AllDigits(digits)
    ensures Atoi(digits) == ValueOf(digits)
    ensures Atoi("-" + digits) == -(ValueOf(digits) as int)
  {
    DigitRunOfDigits(digits);
    assert digits[..|digits|] == digits;
    assert IsDigit(digits[0]);
    TrimStartKeeps(digits);
    var s := "-" + digits;
    TrimStartKeeps(s);
    assert s[1..] == digits;
  }

  /** Text that does not start with white space is left as it is. */
  lemma TrimStartKeeps(s: string)
    requires s == [] || !IsSpace(s[0])
    ensures TrimStart(s) == s
  {
  }

  /** atoi reads back every number "%i" prints. */
  lemma AtoiFormatInt(n: int)
    ensures Atoi(FormatInt(n)) == n
  {
    var m: nat := if n < 0 then -n else n;
    ValueOfFormatNat(m);
    AtoiDigits(FormatNat(m));
  }

  lemma {:induction false} FormatNatLength(n: nat, k: nat)
    requires 1 <= k && n < Pow10(k)
    ensures |FormatNat(n)| <= k
  {
    if n >= 10 {
      assert k >= 2;
      assert n / 10 < Pow10(k - 1);
      FormatNatLength(n / 10, k - 1);
    }
  }

  function Pow10(k: nat): (p: nat)
    ensures p >= 1
  {
    if k == 0 then 1 else 10 * Pow10(k - 1)
  }

  /** The port typed into the constructor is what atoi reads back from the
      port edit box, provided "%i" of it fits in the nine characters kept. */
  lemma PortTextRoundTrip(port: int)
    requires -99999999 <= port <= 999999999
    ensures |PortText(port)| >= 1
    ensures Atoi(PortText(port)) == port
  {
    if port < 0 {
      assert Pow10(8) == 100000000;
      FormatNatLength(-port, 8);
    } else {
      assert Pow10(9) == 1000000000;
      FormatNatLength(port, 9);
    }
    AtoiFormatInt(port);
  }
}
