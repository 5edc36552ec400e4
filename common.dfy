/** Small building blocks shared by the form, the dashboards and the report exports:
    an Option type, JavaScript's `trim`-based blank test, decimal rendering of numbers,
    `padStart(2, '0')`, the `x || '-'` fallback, the plural suffix and the exclusive
    accordion toggle. */
module Common {

  datatype Option<+T> = None | Some(value: T)

  // ---------------------------------------------------------------------------
  // Whitespace and `String.prototype.trim`
  // ---------------------------------------------------------------------------

  /** The whitespace characters `trim` removes (a simplified set: the ASCII ones and NBSP). */
  predicate IsWhitespace(c: char) {
    c == ' ' || c == '\t' || c == '\n' || c == '\r' || c == '\U{000B}' || c == '\U{000C}' || c == '\U{00A0}'
  }

  /** Leading whitespace removed: a suffix of the input, everything before it whitespace. */
  function TrimStart(s: string): (r: string)
    ensures |r| <= |s| && r == s[|s| - |r|..]
    ensures forall i :: 0 <= i < |s| - |r| ==> IsWhitespace(s[i])
    ensures r == [] || !IsWhitespace(r[0])
  {
    if s == [] then [] else if IsWhitespace(s[0]) then TrimStart(s[1..]) else s
  }

  /** Trailing whitespace removed: a prefix of the input, everything after it whitespace. */
  function TrimEnd(s: string): (r: string)
    ensures |r| <= |s| && r == s[..|r|]
    ensures forall i :: |r| <= i < |s| ==> IsWhitespace(s[i])
    ensures r == [] || !IsWhitespace(r[|r| - 1])
  {
    if s == [] then [] else if IsWhitespace(s[|s| - 1]) then TrimEnd(s[..|s| - 1]) else s
  }

  /** `s.trim()`: a slice of the input with only whitespace around it, and neither starting nor
      ending with whitespace. */
  function Trim(s: string): (r: string)
    ensures |r| <= |s|
    ensures r == [] || (!IsWhitespace(r[0]) && !IsWhitespace(r[|r| - 1]))
    ensures exists k :: PaddedAt(s, k, r)
  {
    var t := TrimStart(s);
    var r := TrimEnd(t);
    var k := |s| - |t|;
    assert r == s[k..k + |r|];
    assert forall i :: k + |r| <= i < |s| ==> s[i] == t[i - k];
    assert PaddedAt(s, k, r);
    r
  }

  /** s is r at position k with whitespace only before and after it. */
  predicate PaddedAt(s: string, k: int, r: string) {
    && 0 <= k <= |s| - |r|
    && r == s[k..k + |r|]
    && (forall i :: 0 <= i < k ==> IsWhitespace(s[i]))
    && (forall i :: k + |r| <= i < |s| ==> IsWhitespace(s[i]))
  }

  /** `!s.trim()`: the trimmed string is the empty string, which JavaScript treats as false. */
  predicate IsBlank(s: string) {
    Trim(s) == []
  }

  /** TrimStart leaves the empty string exactly when every character is whitespace. */
  lemma {:induction false} TrimStartEmpty(s: string)
    ensures TrimStart(s) == [] <==> forall i :: 0 <= i < |s| ==> IsWhitespace(s[i])
  {
    if s != [] {
      TrimStartEmpty(s[1..]);
      if IsWhitespace(s[0]) {
        forall i | 0 <= i < |s| && (forall k :: 0 <= k < |s[1..]| ==> IsWhitespace(s[1..][k]))
          ensures IsWhitespace(s[i])
        {
          if i > 0 { assert s[i] == s[1..][i - 1]; }
        }
      }
    }
  }

  /** TrimEnd of a non-empty string with a non-whitespace character is non-empty. */
  lemma {:induction false} TrimEndEmpty(s: string)
    ensures TrimEnd(s) == [] <==> forall i :: 0 <= i < |s| ==> IsWhitespace(s[i])
  {
    if s != [] {
      var p := s[..|s| - 1];
      TrimEndEmpty(p);
      if IsWhitespace(s[|s| - 1]) {
        forall i | 0 <= i < |s| && (forall k :: 0 <= k < |p| ==> IsWhitespace(p[k]))
          ensures IsWhitespace(s[i])
        {
          if i < |s| - 1 { assert s[i] == p[i]; }
        }
      }
    }
  }

  /** A string is blank for `trim` exactly when it consists of whitespace only (the empty string included). */
  lemma BlankIffAllWhitespace(s: string)
    ensures IsBlank(s) <==> forall i :: 0 <= i < |s| ==> IsWhitespace(s[i])
  {
    TrimStartEmpty(s);
    var t := TrimStart(s);
    TrimEndEmpty(t);
    if t != [] {
      assert !IsWhitespace(t[0]);
    }
  }

  // ---------------------------------------------------------------------------
  // Decimal rendering: `String(n)` and `${n}` for integers
  // ---------------------------------------------------------------------------

  predicate IsDigit(c: char) {
    '0' <= c <= '9'
  }

  predicate AllDigits(s: string) {
    forall i :: 0 <= i < |s| ==> IsDigit(s[i])
  }

  function DigitChar(d: nat): (c: char)
    requires d < 10
    ensures IsDigit(c) && c as int - '0' as int == d
  {
    (d + '0' as int) as char
  }

  /** The value of a string of decimal digits (the empty string is 0). */
  function DigitsValue(s: string): nat
    requires AllDigits(s)
  {
    if s == [] then 0 else DigitsValue(s[..|s| - 1]) * 10 + (s[|s| - 1] as int - '0' as int)
  }

  /** `String(n)` for a non-negative integer: its shortest decimal form. */
  function NatToString(n: nat): (s: string)
    ensures 1 <= |s| && AllDigits(s)
    ensures |s| > 1 ==> s[0] != '0'
  {
    if n < 10 then [DigitChar(n)] else NatToString(n / 10) + [DigitChar(n % 10)]
  }

  /** Reading the decimal form back gives the number: NatToString is injective. */
  lemma {:induction false} NatToStringRoundTrip(n: nat)
    ensures DigitsValue(NatToString(n)) == n
  {
    if n >= 10 {
      NatToStringRoundTrip(n / 10);
      var s := NatToString(n);
      assert s[..|s| - 1] == NatToString(n / 10);
    }
  }

  /** A leading zero does not change the value of a digit string. */
  lemma {:induction false} LeadingZero(s: string)
    requires AllDigits(s)
    ensures AllDigits("0" + s) && DigitsValue("0" + s) == DigitsValue(s)
  {
    var t := "0" + s;
    assert AllDigits(t) by {
      forall i | 0 <= i < |t| ensures IsDigit(t[i]) {
        if i > 0 { assert t[i] == s[i - 1]; }
      }
    }
    if s != [] {
      var p := s[..|s| - 1];
      LeadingZero(p);
      assert t[..|t| - 1] == "0" + p;
    }
  }

  /** Numbers from 1000 to 9999 have four digits. */
  lemma FourDigits(n: nat)
    requires 1000 <= n <= 9999
    ensures |NatToString(n)| == 4
  {
    assert NatToString(n) == NatToString(n / 10) + [DigitChar(n % 10)];
    assert NatToString(n / 10) == NatToString(n / 100) + [DigitChar((n / 10) % 10)];
    assert NatToString(n / 100) == NatToString(n / 1000) + [DigitChar((n / 100) % 10)];
  }

  /** `${i}` for any integer, with a leading '-' for negatives. */
  function IntToString(i: int): (s: string)
    ensures 1 <= |s|
  {
    if i < 0 then "-" + NatToString(-i) else NatToString(i)
  }

  /** Reads the text IntToString produces: digits, optionally after one '-'. */
  function ParseInt(s: string): Option<int> {
    if 1 <= |s| && AllDigits(s) then Some(DigitsValue(s))
    else if 2 <= |s| && s[0] == '-' && AllDigits(s[1..]) then (var v: int := DigitsValue(s[1..]); Some(-v))
    else None
  }

  lemma IntToStringRoundTrip(i: int)
    ensures ParseInt(IntToString(i)) == Some(i)
  {
    if i < 0 {
      NatToStringRoundTrip(-i);
      var s := IntToString(i);
      assert s[1..] == NatToString(-i);
      assert !IsDigit(s[0]);
    } else {
      NatToStringRoundTrip(i);
    }
  }

  /** `s.padStart(2, '0')`: left-pad with zeros to length two; longer strings are kept. */
  function PadStart2(s: string): (r: string)
    ensures |r| == if |s| < 2 then 2 else |s|
    ensures r[|r| - |s|..] == s
    ensures forall i :: 0 <= i < |r| - |s| ==> r[i] == '0'
  {
    if |s| >= 2 then s else if |s| == 1 then "0" + s else "00"
  }

  /** Padding a number below 100 gives two digits whose value is the number. */
  lemma PadStart2Value(n: nat)
    requires n < 100
    ensures |PadStart2(NatToString(n))| == 2
    ensures AllDigits(PadStart2(NatToString(n))) && DigitsValue(PadStart2(NatToString(n))) == n
  {
    var s := NatToString(n);
    NatToStringRoundTrip(n);
    if n >= 10 {
      assert NatToString(n / 10) == [DigitChar(n / 10)];
    } else {
      LeadingZero(s);
    }
  }

  // ---------------------------------------------------------------------------
  // Display helpers
  // ---------------------------------------------------------------------------

  /** `x || '-'` for a string field (null and undefined are modelled as ""). */
  function OrDash(x: string): (r: string)
    ensures r != []
    ensures x != [] ==> r == x
    ensures x == [] ==> r == "-"
  {
    if x == [] then "-" else x
  }

  /** The suffix `n > 1 ? 's' : ''`. */
  function Plural(n: nat): string {
    if n > 1 then "s" else ""
  }

  /** `${n} ${noun}${n > 1 ? 's' : ''}`, as in "3 Issues" or "1 Report". */
  function CountLabel(n: nat, noun: string): (r: string)
    requires noun != [] && noun[|noun| - 1] != 's'
    ensures |r| > |noun|
    ensures r[|r| - 1] == 's' <==> n > 1
    ensures LeadingNumber(r) == n
  {
    var digits := NatToString(n);
    var r := digits + " " + noun + Plural(n);
    assert r == digits + (" " + noun + Plural(n));
    LeadingDigitsOf(digits, " " + noun + Plural(n));
    NatToStringRoundTrip(n);
    r
  }

  /** Text after a count label does not change the number it starts with. */
  lemma CountLabelThen(n: nat, noun: string, rest: string)
    requires noun != [] && noun[|noun| - 1] != 's'
    ensures LeadingNumber(CountLabel(n, noun) + rest) == n
  {
    var digits := NatToString(n);
    assert CountLabel(n, noun) + rest == digits + (" " + noun + Plural(n) + rest);
    LeadingDigitsOf(digits, " " + noun + Plural(n) + rest);
    NatToStringRoundTrip(n);
  }

  /** The longest prefix made of digits. */
  function LeadingDigits(s: string): (d: string)
    ensures AllDigits(d) && |d| <= |s| && d == s[..|d|]
  {
    if s != [] && IsDigit(s[0]) then [s[0]] + LeadingDigits(s[1..]) else []
  }

  /** The number a label starts with. */
  function LeadingNumber(s: string): nat {
    DigitsValue(LeadingDigits(s))
  }

  lemma {:induction false} LeadingDigitsOf(d: string, rest: string)
    requires AllDigits(d)
    requires rest == [] || !IsDigit(rest[0])
    ensures LeadingDigits(d + rest) == d
  {
    if d != [] {
      assert (d + rest)[1..] == d[1..] + rest;
      LeadingDigitsOf(d[1..], rest);
    }
  }

  // ---------------------------------------------------------------------------
  // The exclusive accordion
  // ---------------------------------------------------------------------------

  /** `setOpen(open === id ? null : id)`: clicking the open panel closes it; clicking any
      other panel opens that one and closes whichever was open, so at most one is ever open. */
  function Toggle(open: Option<string>, id: string): (r: Option<string>)
    ensures r == None <==> open == Some(id)
    ensures r != None ==> r == Some(id)
  {
    if open == Some(id) then None else Some(id)
  }

  /** Clicking the same panel twice restores the previous state exactly when that state was
      "nothing open" or "this panel open"; after another panel was open, it ends closed. */
  lemma ToggleTwice(open: Option<string>, id: string)
    ensures Toggle(Toggle(open, id), id) == (if open == Some(id) then open else None)
  {
  }
}
