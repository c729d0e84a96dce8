/** The offset and limit of a list command, read from text into 64-bit unsigned settings. */
module Selection {
  import opened Entities
  import opened Validators

  // ---------- The integer reader of the standard library ----------

  predicate IsSpace(c: char) {
    c in [' ', '\t', '\n', '\r', '\U{0B}', '\U{0C}']
  }

  function SkipSpaces(s: string): string {
    if s != "" && IsSpace(s[0]) then SkipSpaces(s[1..]) else s
  }

  // The digits a text starts with
  function DigitPrefix(s: string): (ds: string)
    ensures forall c :: c in ds ==> IsDigit(c)
  {
    if s != "" && IsDigit(s[0]) then [s[0]] + DigitPrefix(s[1..]) else ""
  }

  function DigitValue(c: char): nat
    requires IsDigit(c)
  {
    c as int - '0' as int
  }

  function Numeral(ds: string): nat
    requires forall c :: c in ds ==> IsDigit(c)
  {
    if ds == "" then 0
    else
      assert ds[|ds| - 1] in ds;
      Numeral(ds[..|ds| - 1]) * 10 + DigitValue(ds[|ds| - 1])
  }

  // Reads digits into a signed 32-bit integer
  function StoiDigits(negative: bool, s: string): Option<int> {
    var ds := DigitPrefix(s);
    var n: int := Numeral(ds);
    var v := if negative then -n else n;
    if ds != "" && -TWO_TO_THE_31 <= v < TWO_TO_THE_31 then Some(v) else None
  }

  /** Reads a signed 32-bit integer after white space, ignoring what follows it. */
  function Stoi(s: string): Option<int> {
    var t := SkipSpaces(s);
    if t != "" && (t[0] == '-' || t[0] == '+') then StoiDigits(t[0] == '-', t[1..])
    else StoiDigits(false, t)
  }

  // ---------- Decimal notation ----------

  function DecimalNat(n: nat): (ds: string)
    ensures ds != "" && forall c :: c in ds ==> IsDigit(c)
    ensures Numeral(ds) == n
  {
    var last := [('0' as int + n % 10) as char];
    if n < 10 then last else DecimalNat(n / 10) + last
  }

  function Decimal(n: int): string {
    if n < 0 then "-" + DecimalNat(-n) else DecimalNat(n)
  }

  lemma {:induction false} DigitPrefixOfDigits(ds: string, rest: string)
    requires forall c :: c in ds ==> IsDigit(c)
    requires rest != "" ==> !IsDigit(rest[0])
    ensures DigitPrefix(ds + rest) == ds
  {
    if ds == "" {
      assert ds + rest == rest;
    } else {
      DigitPrefixOfDigits(ds[1..], rest);
      assert (ds + rest)[1..] == ds[1..] + rest;
    }
  }

  lemma StoiDigitsValue(negative: bool, ds: string, rest: string)
    requires ds != "" && forall c :: c in ds ==> IsDigit(c)
    requires rest != "" ==> !IsDigit(rest[0])
    ensures var v := if negative then 0 - Numeral(ds) else Numeral(ds) + 0;
            StoiDigits(negative, ds + rest) == if -TWO_TO_THE_31 <= v < TWO_TO_THE_31 then Some(v) else None
  {
    DigitPrefixOfDigits(ds, rest);
  }

  lemma StoiOfDigits(ds: string, rest: string)
    requires ds != "" && forall c :: c in ds ==> IsDigit(c)
    ensures Stoi(ds + rest) == StoiDigits(false, ds + rest)
    ensures Stoi("-" + (ds + rest)) == StoiDigits(true, ds + rest)
  {
    assert IsDigit((ds + rest)[0]) by { assert ds[0] in ds; }
    assert SkipSpaces(ds + rest) == ds + rest;
    var s := "-" + (ds + rest);
    assert SkipSpaces(s) == s && s[1..] == ds + rest;
  }

  /** A decimal number is read back, whatever text follows it, exactly when it fits 32 bits. */
  lemma StoiOfDecimal(n: int, rest: string)
    requires rest != "" ==> !IsDigit(rest[0])
    ensures Stoi(Decimal(n) + rest) == if -TWO_TO_THE_31 <= n < TWO_TO_THE_31 then Some(n) else None
  {
    var ds := DecimalNat(if n < 0 then -n else n);
    var s := Decimal(n) + rest;
    assert s == if n < 0 then "-" + (ds + rest) else ds + rest;
    assert Stoi(s) == StoiDigits(n < 0, ds + rest) by { StoiOfDigits(ds, rest); }
    StoiDigitsValue(n < 0, ds, rest);
  }

  // ---------- What is readable ----------

  ghost predicate AllDigits(s: string) {
    forall c :: c in s ==> IsDigit(c)
  }

  ghost predicate AllSpaces(s: string) {
    forall c :: c in s ==> IsSpace(c)
  }

  // White space, a sign or none, digits, and anything else: the digits are the whole numeral
  ghost predicate IsNumeralText(s: string, blank: string, sign: string, ds: string, rest: string) {
    && s == blank + (sign + (ds + rest))
    && AllSpaces(blank) && (sign == "" || sign == "-" || sign == "+")
    && ds != "" && AllDigits(ds) && (rest != "" ==> !IsDigit(rest[0]))
  }

  function Signed(sign: string, ds: string): int
    requires forall c :: c in ds ==> IsDigit(c)
  {
    if sign == "-" then 0 - Numeral(ds) else Numeral(ds) + 0
  }

  ghost predicate Reads(s: string, v: int) {
    && -TWO_TO_THE_31 <= v < TWO_TO_THE_31
    && exists blank, sign, ds, rest :: IsNumeralText(s, blank, sign, ds, rest) && v == Signed(sign, ds)
  }

  lemma {:induction false} SkipBlank(blank: string, s: string)
    requires AllSpaces(blank) && (s != "" ==> !IsSpace(s[0]))
    ensures SkipSpaces(blank + s) == s
  {
    if blank == "" {
      assert blank + s == s;
    } else {
      assert blank[0] in blank && forall c :: c in blank[1..] ==> c in blank;
      SkipBlank(blank[1..], s);
      assert (blank + s)[1..] == blank[1..] + s;
    }
  }

  lemma {:induction false} SkippedBlank(s: string) returns (blank: string)
    ensures AllSpaces(blank) && s == blank + SkipSpaces(s)
    ensures SkipSpaces(s) != "" ==> !IsSpace(SkipSpaces(s)[0])
  {
    if s != "" && IsSpace(s[0]) {
      blank := SkippedBlank(s[1..]);
      blank := [s[0]] + blank;
    } else {
      blank := "";
    }
  }

  lemma {:induction false} DigitsSplit(s: string) returns (rest: string)
    ensures s == DigitPrefix(s) + rest && (rest != "" ==> !IsDigit(rest[0]))
  {
    if s != "" && IsDigit(s[0]) {
      rest := DigitsSplit(s[1..]);
      assert s == [s[0]] + s[1..];
    } else {
      rest := s;
    }
  }

  lemma StoiReads(s: string, v: int)
    requires Stoi(s) == Some(v)
    ensures Reads(s, v)
  {
    var blank := SkippedBlank(s);
    var t := SkipSpaces(s);
    var signed := t != "" && (t[0] == '-' || t[0] == '+');
    var sign, u := if signed then t[..1] else "", if signed then t[1..] else t;
    var rest := DigitsSplit(u);
    assert sign + u == t;
    assert IsNumeralText(s, blank, sign, DigitPrefix(u), rest);
  }

  lemma ReadsStoi(s: string, blank: string, sign: string, ds: string, rest: string)
    requires IsNumeralText(s, blank, sign, ds, rest)
    ensures var v := Signed(sign, ds); Stoi(s) == if -TWO_TO_THE_31 <= v < TWO_TO_THE_31 then Some(v) else None
  {
    var u := ds + rest;
    var t := sign + u;
    assert u[0] in ds && IsDigit(u[0]);
    assert t[0] == if sign == "" then u[0] else sign[0];
    SkipBlank(blank, t);
    assert t[|sign|..] == u;
    StoiDigitsValue(sign == "-", ds, rest);
  }

  /** A text is read as a number exactly when it is white space, a sign or none and at least one digit,
      whatever follows, and the number fits 32 bits; any other text is unreadable. */
  lemma StoiMeans(s: string, v: int)
    ensures Stoi(s) == Some(v) <==> Reads(s, v)
    ensures Stoi(s) == None <==> forall w :: !Reads(s, w)
  {
    if Reads(s, v) {
      var blank, sign, ds, rest :| IsNumeralText(s, blank, sign, ds, rest) && v == Signed(sign, ds);
      ReadsStoi(s, blank, sign, ds, rest);
    }
    if Stoi(s).Some? {
      StoiReads(s, Stoi(s).value);
    }
    forall w | Reads(s, w) ensures Stoi(s) == Some(w) {
      var blank, sign, ds, rest :| IsNumeralText(s, blank, sign, ds, rest) && w == Signed(sign, ds);
      ReadsStoi(s, blank, sign, ds, rest);
    }
  }

  // ---------- The settings ----------

  class SelectionBase {
    var offset: int
    var limit: int

    ghost predicate Valid()
      reads this
    {
      0 <= offset < TWO_TO_THE_64 && 0 <= limit < TWO_TO_THE_64
    }

    constructor ()
      ensures Valid() && offset == 0 && limit == TWO_TO_THE_64 - 1
    {
      offset, limit := 0, TWO_TO_THE_64 - 1;
    }

    method TryConvertToOffset(s: string) returns (ok: bool)
      requires Valid()
      modifies this`offset
      ensures Valid() && ok == Convertible(s) && offset == Converted(s, old(offset))
    {
      if s != "" {
        var v := Stoi(s);
        if v.None? { return false; }
        offset := v.value % TWO_TO_THE_64;
      }
      ok := true;
    }

    method TryConvertToLimit(s: string) returns (ok: bool)
      requires Valid()
      modifies this`limit
      ensures Valid() && ok == Convertible(s) && limit == Converted(s, old(limit))
    {
      if s != "" {
        var v := Stoi(s);
        if v.None? { return false; }
        limit := v.value % TWO_TO_THE_64;
      }
      ok := true;
    }
  }

  predicate Convertible(s: string) {
    s == "" || Stoi(s).Some?
  }

  // The setting after reading s: unchanged for an empty or unreadable text
  function Converted(s: string, setting: int): int {
    if s == "" || Stoi(s).None? then setting else Stoi(s).value % TWO_TO_THE_64
  }

  lemma WrappedSmall(n: int)
    requires -TWO_TO_THE_31 <= n < TWO_TO_THE_31
    ensures n % TWO_TO_THE_64 == if n < 0 then TWO_TO_THE_64 + n else n
  {
  }

  /** A written number sets itself; a negative one wraps to its distance below 2^64. */
  lemma SettingOfDecimal(n: int, setting: int)
    requires -TWO_TO_THE_31 <= n < TWO_TO_THE_31
    ensures Convertible(Decimal(n))
    ensures Converted(Decimal(n), setting) == if n < 0 then TWO_TO_THE_64 + n else n
  {
    var s := Decimal(n);
    assert Stoi(s) == Some(n) by {
      StoiOfDecimal(n, "");
      assert s + "" == s;
    }
    assert s != "";
    WrappedSmall(n);
  }

  /** Any text: an empty one keeps the setting, a readable one sets it, a negative number to its distance
      below 2^64, and every other is refused and keeps it. */
  lemma SettingMeans(s: string, setting: int, v: int)
    ensures Convertible(s) <==> s == "" || exists w :: Reads(s, w)
    ensures Reads(s, v) ==> Converted(s, setting) == if v < 0 then TWO_TO_THE_64 + v else v
    ensures s == "" || !Convertible(s) ==> Converted(s, setting) == setting
  {
    StoiMeans(s, v);
    if Stoi(s).Some? {
      StoiMeans(s, Stoi(s).value);
    }
    if Reads(s, v) {
      NothingReadsEmpty(v);
      WrappedSmall(v);
    }
  }

  lemma NothingReadsEmpty(v: int)
    ensures !Reads("", v)
  {
    StoiMeans("", v);
  }
}
