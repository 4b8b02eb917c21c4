/** The handful of Python string operations the configuration helpers
    use: `str.upper`, `str.split` with a one-character separator and its
    inverse `str.join`, `str(n)` for integers and `int(s)` for strings.
    Upper-casing and digits are modelled on ASCII; whitespace is Python's
    full `str.isspace` set. */
module Text {
  import opened Common

  predicate IsLower(c: char)
  {
    'a' <= c <= 'z'
  }

  function UpperChar(c: char): char
  {
    if IsLower(c) then (c as int - 32) as char else c
  }

  /** `str.upper` on ASCII letters; every other character is kept. */
  function Upper(s: string): (r: string)
    ensures |r| == |s|
    ensures forall i :: 0 <= i < |r| ==> !IsLower(r[i])
    ensures forall i :: 0 <= i < |r| ==>
      if IsLower(s[i]) then r[i] as int == s[i] as int - 32 else r[i] == s[i]
  {
    if s == [] then [] else [UpperChar(s[0])] + Upper(s[1..])
  }

  /** Upper-casing twice is upper-casing once, and an upper-case name is
      its own upper-cased form. */
  lemma UpperIdempotent(s: string)
    ensures Upper(Upper(s)) == Upper(s)
    ensures (forall i :: 0 <= i < |s| ==> !IsLower(s[i])) ==> Upper(s) == s
  {
  }

  /** `s.split(sep)`: the pieces between occurrences of `sep`, empty pieces
      included, so there is always at least one. */
  function Split(s: string, sep: char): (r: seq<string>)
    ensures |r| >= 1
    ensures forall i :: 0 <= i < |r| ==> sep !in r[i]
  {
    if s == [] then [""]
    else
      var rest := Split(s[1..], sep);
      if s[0] == sep then [""] + rest
      else [[s[0]] + rest[0]] + rest[1..]
  }

  /** `sep.join(pieces)`. */
  function Join(pieces: seq<string>, sep: char): string
  {
    if pieces == [] then ""
    else if |pieces| == 1 then pieces[0]
    else pieces[0] + [sep] + Join(pieces[1..], sep)
  }

  /** Joining the pieces with the separator gives the string back. */
  lemma {:induction false} SplitJoin(s: string, sep: char)
    ensures Join(Split(s, sep), sep) == s
  {
    if s != [] {
      var rest := Split(s[1..], sep);
      SplitJoin(s[1..], sep);
      if s[0] == sep {
        assert ([""] + rest)[1..] == rest;
      } else {
        var r := [[s[0]] + rest[0]] + rest[1..];
        if |rest| == 1 {
          assert r == [[s[0]] + rest[0]];
        } else {
          assert r[1..] == rest[1..];
          assert Join(rest, sep) == rest[0] + [sep] + Join(rest[1..], sep);
        }
      }
    }
  }

  /** Splitting a join of separator-free pieces gives the pieces back. */
  lemma {:induction false} JoinSplit(pieces: seq<string>, sep: char)
    requires |pieces| >= 1
    requires forall i :: 0 <= i < |pieces| ==> sep !in pieces[i]
    ensures Split(Join(pieces, sep), sep) == pieces
  {
    if |pieces| == 1 {
      SplitNoSeparator(pieces[0], sep);
    } else {
      JoinSplit(pieces[1..], sep);
      SplitAfterSeparator(pieces[0], Join(pieces[1..], sep), sep);
      assert [pieces[0]] + pieces[1..] == pieces;
    }
  }

  lemma {:induction false} SplitNoSeparator(s: string, sep: char)
    requires sep !in s
    ensures Split(s, sep) == [s]
  {
    if s != [] {
      SplitNoSeparator(s[1..], sep);
      assert [s[0]] + s[1..] == s;
    }
  }

  lemma {:induction false} SplitAfterSeparator(p: string, t: string, sep: char)
    requires sep !in p
    ensures Split(p + [sep] + t, sep) == [p] + Split(t, sep)
  {
    if p == [] {
      assert p + [sep] + t == [sep] + t;
      assert ([sep] + t)[1..] == t;
    } else {
      assert (p + [sep] + t)[1..] == p[1..] + [sep] + t;
      SplitAfterSeparator(p[1..], t, sep);
      assert [p[0]] + p[1..] == p;
    }
  }

  predicate IsDigit(c: char)
  {
    '0' <= c <= '9'
  }

  predicate AllDigits(s: string)
  {
    forall i :: 0 <= i < |s| ==> IsDigit(s[i])
  }

  function DigitChar(d: nat): (c: char)
    requires d < 10
    ensures IsDigit(c) && c as int - '0' as int == d
  {
    ('0' as int + d) as char
  }

  /** `str(n)` for a non-negative integer: decimal digits, most
      significant first, without leading zeros. */
  function Decimal(n: nat): (s: string)
    ensures |s| >= 1 && AllDigits(s)
    ensures s[0] == '0' ==> n == 0
  {
    if n < 10 then [DigitChar(n)] else Decimal(n / 10) + [DigitChar(n % 10)]
  }

  /** The number a string of decimal digits denotes. */
  function ValueOf(s: string): nat
    requires AllDigits(s)
  {
    if s == [] then 0 else ValueOf(s[..|s| - 1]) * 10 + (s[|s| - 1] as int - '0' as int)
  }

  lemma {:induction false} ValueOfDecimal(n: nat)
    ensures ValueOf(Decimal(n)) == n
  {
    if n >= 10 {
      var s := Decimal(n);
      assert s[..|s| - 1] == Decimal(n / 10);
      ValueOfDecimal(n / 10);
    }
  }

  /** `str(n)` for any integer. */
  function Signed(n: int): (s: string)
    ensures |s| >= 1 && (n < 0 <==> s[0] == '-')
  {
    if n < 0 then "-" + Decimal(-n) else Decimal(n)
  }

  /** Python's `str.isspace`. */
  predicate IsSpace(c: char)
  {
    '\t' <= c <= '\r' || '\U{1c}' <= c <= ' ' || c == '\U{85}' || c == '\U{a0}' ||
    c == '\U{1680}' || '\U{2000}' <= c <= '\U{200a}' || c == '\U{2028}' || c == '\U{2029}' ||
    c == '\U{202f}' || c == '\U{205f}' || c == '\U{3000}'
  }

  /** `s.strip()`: the longest infix without white space at either end. */
  function StripLeft(s: string): (r: string)
    ensures |r| <= |s| && r == s[|s| - |r|..]
    ensures r == [] || !IsSpace(r[0])
  {
    if s != [] && IsSpace(s[0]) then
      var r := StripLeft(s[1..]);
      assert s[1..][|s| - 1 - |r|..] == s[|s| - |r|..];
      r
    else s
  }

  function StripRight(s: string): (r: string)
    ensures |r| <= |s| && r == s[..|r|]
    ensures r == [] || !IsSpace(r[|r| - 1])
  {
    if s != [] && IsSpace(s[|s| - 1]) then
      var r := StripRight(s[..|s| - 1]);
      assert s[..|s| - 1][..|r|] == s[..|r|];
      r
    else s
  }

  /** What `StripLeft` removes is white space. */
  lemma {:induction false} StripLeftSpaces(s: string, i: nat)
    requires i < |s| - |StripLeft(s)|
    ensures IsSpace(s[i])
  {
    if i > 0 {
      StripLeftSpaces(s[1..], i - 1);
    }
  }

  /** What `StripRight` removes is white space. */
  lemma {:induction false} StripRightSpaces(s: string, i: nat)
    requires |StripRight(s)| <= i < |s|
    ensures IsSpace(s[i])
  {
    if i < |s| - 1 {
      StripRightSpaces(s[..|s| - 1], i);
    }
  }

  function Strip(s: string): string
  {
    StripRight(StripLeft(s))
  }

  /** Digits, with single underscores allowed between two digits. */
  predicate DigitGroups(t: string)
  {
    |t| >= 1 && IsDigit(t[0]) && IsDigit(t[|t| - 1]) &&
    (forall i :: 0 <= i < |t| ==> IsDigit(t[i]) || t[i] == '_') &&
    (forall i, j :: 0 <= i < |t| && 0 <= j < |t| && j == i + 1 && t[i] == '_' ==> IsDigit(t[j]))
  }

  function Digits(t: string): (r: string)
    requires forall i :: 0 <= i < |t| ==> IsDigit(t[i]) || t[i] == '_'
    ensures AllDigits(r)
    ensures AllDigits(t) ==> r == t
  {
    if t == [] then []
    else (if t[0] == '_' then [] else [t[0]]) + Digits(t[1..])
  }

  /** `int(s)`: white space around an optionally signed run of digit
      groups; anything else is a `ValueError` (`None` here). */
  function ParseInt(s: string): Option<int>
  {
    ParseStripped(Strip(s))
  }

  function ParseStripped(t: string): Option<int>
  {
    if |t| >= 1 && (t[0] == '-' || t[0] == '+') then
      match ParseUnsigned(t[1..])
      case None => None
      case Some(v) => Some(if t[0] == '-' then -(v as int) else v as int)
    else ParseUnsigned(t)
  }

  /** A run of digit groups without a sign. */
  function ParseUnsigned(u: string): Option<nat>
  {
    if DigitGroups(u) then Some(ValueOf(Digits(u))) else None
  }

  lemma StripUnpadded(s: string)
    requires s == [] || (!IsSpace(s[0]) && !IsSpace(s[|s| - 1]))
    ensures Strip(s) == s
  {
    assert StripLeft(s) == s;
  }

  lemma DigitsAreGroups(d: string)
    requires |d| >= 1 && AllDigits(d)
    ensures DigitGroups(d) && Digits(d) == d
  {
  }

  /** Digits, signed or not, carry no white space to strip. */
  lemma StripDigits(d: string)
    requires |d| >= 1 && AllDigits(d)
    ensures Strip(d) == d
  {
    assert IsDigit(d[0]) && IsDigit(d[|d| - 1]);
    StripUnpadded(d);
  }

  lemma StripSigned(d: string)
    requires |d| >= 1 && AllDigits(d)
    ensures Strip("-" + d) == "-" + d
  {
    var s := "-" + d;
    assert s[0] == '-' && s[|s| - 1] == d[|d| - 1];
    assert IsDigit(d[|d| - 1]);
    StripUnpadded(s);
  }

  /** `str(n)` reads back as an unsigned run of digits. */
  lemma DecimalUnsigned(n: nat)
    ensures ParseUnsigned(Decimal(n)) == Some(n)
  {
    DigitsAreGroups(Decimal(n));
    ValueOfDecimal(n);
  }

  /** Without a sign, the stripped text is read as unsigned. */
  lemma ParseStrippedUnsigned(d: string, v: nat)
    requires |d| >= 1 && IsDigit(d[0]) && ParseUnsigned(d) == Some(v)
    ensures ParseStripped(d) == Some(v)
  {
  }

  /** A minus sign negates what follows it. */
  lemma ParseStrippedNegative(d: string, v: nat)
    requires ParseUnsigned(d) == Some(v)
    ensures ParseStripped("-" + d) == Some(-(v as int))
  {
    var t := "-" + d;
    assert t[0] == '-' && t[1..] == d;
  }

  lemma ParseIntDecimal(n: nat)
    ensures ParseInt(Decimal(n)) == Some(n)
  {
    var d := Decimal(n);
    StripDigits(d);
    DecimalUnsigned(n);
    ParseStrippedUnsigned(d, n);
  }

  lemma ParseNegative(m: nat)
    ensures ParseInt("-" + Decimal(m)) == Some(-(m as int))
  {
    var d := Decimal(m);
    StripSigned(d);
    DecimalUnsigned(m);
    ParseStrippedNegative(d, m);
  }

  /** `int(str(n)) == n`. */
  lemma ParseIntSigned(n: int)
    ensures ParseInt(Signed(n)) == Some(n)
  {
    if n < 0 {
      var m: nat := -n;
      assert Signed(n) == "-" + Decimal(m);
      ParseNegative(m);
    } else {
      assert Signed(n) == Decimal(n);
      ParseIntDecimal(n);
    }
  }

  /** Stripping removes white space only. */
  lemma StripKeeps(s: string, i: nat)
    requires i < |s| && !IsSpace(s[i])
    ensures s[i] in Strip(s)
  {
    var l := StripLeft(s);
    if i < |s| - |l| {
      StripLeftSpaces(s, i);
    }
    var j := i - (|s| - |l|);
    assert l[j] == s[i];
    var t := StripRight(l);
    if j >= |t| {
      StripRightSpaces(l, j);
    }
    assert j < |t|;
    assert t[j] == s[i];
  }

  lemma NoGroupsWithPoint(t: string, k: nat)
    requires k < |t| && t[k] == '.'
    ensures !DigitGroups(t)
  {
  }

  /** A stripped text holding a point is no signed run of digit groups. */
  lemma StrippedRejectsPoint(t: string, k: nat)
    requires k < |t| && t[k] == '.'
    ensures ParseStripped(t) == None
  {
    NoGroupsWithPoint(t, k);
    if t[0] == '-' || t[0] == '+' {
      NoGroupsWithPoint(t[1..], k - 1);
    }
  }

  /** A string with a decimal point, such as a float literal, is never an
      integer. */
  lemma ParseIntRejectsPoint(s: string)
    requires '.' in s
    ensures ParseInt(s) == None
  {
    var i :| 0 <= i < |s| && s[i] == '.';
    StripKeeps(s, i);
    var t := Strip(s);
    var k :| 0 <= k < |t| && t[k] == '.';
    StrippedRejectsPoint(t, k);
  }

  /** The fill value of the metadata files. */
  lemma TestedNegative()
    ensures ParseInt("-9999") == Some(-9999)
  {
    assert Signed(-9999) == "-9999" by {
      assert Decimal(9999) == Decimal(999) + ['9'];
      assert Decimal(999) == Decimal(99) + ['9'];
      assert Decimal(99) == Decimal(9) + ['9'];
    }
    ParseIntSigned(-9999);
  }

  /** Leading zeros are accepted, as in a file name's version `04`. */
  lemma TestedLeadingZero()
    ensures ParseInt("04") == Some(4)
  {
    var s := "04";
    StripDigits(s);
    DigitsAreGroups(s);
    assert s[..1] == "0";
    assert ValueOf(s) == 4;
    ParseStrippedUnsigned(s, 4);
  }

  /** A doubled underscore is rejected. */
  lemma TestedDoubleUnderscore()
    ensures ParseInt("1__0") == None
  {
    var s := "1__0";
    StripUnpadded(s);
    assert s[1] == '_' && !IsDigit(s[2]);
  }

  /** Surrounding white space is dropped. */
  lemma TestedPadding()
    ensures ParseInt(" 7\n") == Some(7)
  {
    PaddingStripped();
    SevenUnsigned();
    ParseStrippedUnsigned("7", 7);
  }

  lemma SevenUnsigned()
    ensures ParseUnsigned("7") == Some(7)
  {
    DigitsAreGroups("7");
    assert "7"[..0] == [];
  }

  lemma PaddingStripped()
    ensures Strip(" 7\n") == "7"
  {
    LeadingSpaceStripped();
    TrailingNewlineStripped();
  }

  lemma LeadingSpaceStripped()
    ensures StripLeft(" 7\n") == "7\n"
  {
    var s := " 7\n";
    assert IsSpace(s[0]) && s[1..] == "7\n";
    assert !IsSpace('7');
  }

  lemma TrailingNewlineStripped()
    ensures StripRight("7\n") == "7"
  {
    var t := "7\n";
    assert IsSpace(t[1]) && t[..1] == "7";
    assert !IsSpace('7');
  }
}
