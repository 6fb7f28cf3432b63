/** Which strings are callsigns, and what they say (protocol/aprs.py). */
module Callsigns {
  import opened Bytes
  import opened Ax25

  /** The white space of the Unicode standard, and the four separators of ASCII. */
  predicate IsBlank(c: char) {
    c in "\t\n\U{000B}\U{000C}\r\U{001C}\U{001D}\U{001E}\U{001F} \U{0085}\U{00A0}\U{1680}" +
         "\U{2000}\U{2001}\U{2002}\U{2003}\U{2004}\U{2005}\U{2006}\U{2007}\U{2008}\U{2009}\U{200A}\U{2028}\U{2029}\U{202F}\U{205F}\U{3000}"
  }

  predicate Blank(s: string) { forall i | 0 <= i < |s| :: IsBlank(s[i]) }

  lemma SpaceIff(c: char)
    ensures IsSpace(c) <==> IsBlank(c)
  {}

  predicate AllSpaces(s: string) { forall i | 0 <= i < |s| :: IsSpace(s[i]) }

  lemma BlankIff(s: string)
    ensures Blank(s) <==> AllSpaces(s)
  {
    hide IsSpace, IsBlank;
    forall i | 0 <= i < |s| ensures IsSpace(s[i]) <==> IsBlank(s[i]) { SpaceIff(s[i]); }
  }

  predicate LettersAndDigits(s: string) {
    forall i | 0 <= i < |s| :: '0' <= s[i] <= '9' || 'A' <= s[i] <= 'Z' || 'a' <= s[i] <= 'z'
  }

  /** One or two decimal digits, as a number. */
  predicate Numeral(s: string, n: int) {
    || (|s| == 1 && 0 <= n < 10 && s[0] == ('0' as int + n) as char)
    || (|s| == 2 && 0 <= n < 100 && s[0] == ('0' as int + n / 10) as char && s[1] == ('0' as int + n % 10) as char)
  }

  /** The same name in capitals. */
  predicate InCapitals(name: string, capitals: string) {
    |capitals| == |name| && forall i | 0 <= i < |name| ::
      if 'a' <= name[i] <= 'z' then capitals[i] as int - 'A' as int == name[i] as int - 'a' as int else capitals[i] == name[i]
  }

  /** Blanks, one to six letters or digits, nothing or a hyphen and a number of one or two digits, blanks. */
  predicate Spells(value: string, left: string, name: string, suffix: string, n: int, right: string) {
    && value == left + name + suffix + right && Blank(left) && Blank(right)
    && 1 <= |name| <= 6 && LettersAndDigits(name)
    && if suffix == [] then n == 0 else suffix[0] == '-' && Numeral(suffix[1..], n)
  }

  // ----- Stripping -----

  lemma {:induction false} StripLeftBlank(left: string, s: string)
    requires AllSpaces(left) && (s == [] || !IsSpace(s[0]))
    ensures StripLeft(left + s) == s
    decreases left
  {
    hide IsSpace;
    if left == [] {
      assert left + s == s;
    } else {
      assert (left + s)[1..] == left[1..] + s;
      StripLeftBlank(left[1..], s);
    }
  }

  lemma {:induction false} StripRightBlank(s: string, right: string)
    requires AllSpaces(right) && (s == [] || !IsSpace(s[|s| - 1]))
    ensures StripRight(s + right) == s
    decreases right
  {
    hide IsSpace;
    if right == [] {
      assert s + right == s;
    } else {
      var n := |right| - 1;
      assert (s + right)[..|s| + n] == s + right[..n];
      assert (s + right)[|s| + n] == right[n];
      StripRightBlank(s, right[..n]);
    }
  }

  lemma {:induction false} StripLeftForm(s: string) returns (left: string)
    ensures s == left + StripLeft(s) && AllSpaces(left)
    decreases s
  {
    hide IsSpace;
    left := [];
    if s != [] && IsSpace(s[0]) {
      var rest := StripLeftForm(s[1..]);
      left := [s[0]] + rest;
    }
  }

  lemma {:induction false} StripRightForm(s: string) returns (right: string)
    ensures s == StripRight(s) + right && AllSpaces(right)
    decreases s
  {
    hide IsSpace;
    right := [];
    if s != [] && IsSpace(s[|s| - 1]) {
      var rest := StripRightForm(s[..|s| - 1]);
      right := rest + [s[|s| - 1]];
      assert s == s[..|s| - 1] + [s[|s| - 1]];
    }
  }

  lemma {:induction false} StripLeftStarts(s: string)
    ensures StripLeft(s) == [] || !IsSpace(StripLeft(s)[0])
    decreases s
  {
    hide IsSpace;
    if s != [] && IsSpace(s[0]) {
      StripLeftStarts(s[1..]);
    }
  }

  lemma {:induction false} StripRightEnds(s: string)
    ensures StripRight(s) <= s && (StripRight(s) == [] || !IsSpace(StripRight(s)[|StripRight(s)| - 1]))
    decreases s
  {
    hide IsSpace;
    if s != [] && IsSpace(s[|s| - 1]) {
      StripRightEnds(s[..|s| - 1]);
    }
  }

  /** Whatever is stripped is blanks around what is left, which begins and ends with none. */
  lemma StripForm(s: string) returns (left: string, right: string)
    ensures s == left + Strip(s) + right && Blank(left) && Blank(right)
    ensures Strip(s) != [] ==> !IsBlank(Strip(s)[0]) && !IsBlank(Strip(s)[|Strip(s)| - 1])
  {
    hide IsSpace, IsBlank;
    left := StripLeftForm(s);
    right := StripRightForm(StripLeft(s));
    StripLeftStarts(s);
    StripRightEnds(StripLeft(s));
    BlankIff(left);
    BlankIff(right);
    hide Blank;
    assert s == left + (Strip(s) + right);
    if Strip(s) != [] {
      SpaceIff(Strip(s)[0]);
      SpaceIff(Strip(s)[|Strip(s)| - 1]);
      assert Strip(s)[0] == StripLeft(s)[0];
    }
  }

  lemma {:induction false} RunOf(name: string, rest: string)
    requires LettersAndDigits(name) && (rest == [] || rest[0] == '-')
    ensures AlnumRun(name + rest) == |name|
    decreases name
  {
    if name == [] {
      assert name + rest == rest;
    } else {
      assert (name + rest)[1..] == name[1..] + rest;
      RunOf(name[1..], rest);
    }
  }

  // ----- Callsigns -----

  lemma NumeralEnds(s: string, n: int)
    requires Numeral(s, n)
    ensures s != [] && !IsSpace(s[|s| - 1])
  {}

  lemma NameEnds(name: string)
    requires name != [] && LettersAndDigits(name)
    ensures !IsSpace(name[0]) && !IsSpace(name[|name| - 1])
  {}

  lemma Stripped(value: string, left: string, name: string, suffix: string, n: int, right: string)
    requires Spells(value, left, name, suffix, n, right)
    ensures Strip(value) == name + suffix
  {
    hide IsSpace, IsBlank, Blank, Numeral, LettersAndDigits;
    NameEnds(name);
    if suffix != [] { NumeralEnds(suffix[1..], n); }
    BlankIff(left);
    BlankIff(right);
    var s := name + suffix;
    assert s[0] == name[0] && s[|s| - 1] == if suffix == [] then name[|name| - 1] else suffix[1..][|suffix| - 2];
    assert value == left + (s + right);
    StripLeftBlank(left, s + right);
    StripRightBlank(s, right);
  }

  lemma NumeralValue(s: string, n: int)
    requires Numeral(s, n)
    ensures |s| == 1 ==> IsDigit(s[0]) && Digit(s[0]) == n
    ensures |s| == 2 ==> IsDigit(s[0]) && IsDigit(s[1]) && 10 * Digit(s[0]) + Digit(s[1]) == n
  {}

  lemma ValueIsNumeral(s: string)
    ensures |s| == 1 && IsDigit(s[0]) ==> Numeral(s, Digit(s[0]))
    ensures |s| == 2 && IsDigit(s[0]) && IsDigit(s[1]) ==> Numeral(s, 10 * Digit(s[0]) + Digit(s[1]))
  {
    if |s| == 2 && IsDigit(s[0]) && IsDigit(s[1]) {
      var n := 10 * Digit(s[0]) + Digit(s[1]);
      assert n / 10 == Digit(s[0]) && n % 10 == Digit(s[1]);
    }
  }

  lemma Capitals(name: string)
    ensures InCapitals(name, UpperAll(name))
  {}

  lemma CapitalsUnique(name: string, a: string, b: string)
    requires InCapitals(name, a) && InCapitals(name, b)
    ensures a == b
  {
    forall i | 0 <= i < |name|
      ensures a[i] == b[i]
    {
      assert a[i] as int == b[i] as int;
    }
  }

  /** Every callsign is read as its name in capitals and its number, 0 if it has none. */
  lemma SpeltIsParsed(value: string, left: string, name: string, suffix: string, n: int, right: string, capitals: string)
    requires Spells(value, left, name, suffix, n, right) && InCapitals(name, capitals)
    ensures ParseCallsign(value) == Success(Address(capitals, n, false))
  {
    hide IsBlank;
    Stripped(value, left, name, suffix, n, right);
    RunOf(name, suffix);
    Capitals(name);
    CapitalsUnique(name, capitals, UpperAll(name));
    if suffix != [] { NumeralValue(suffix[1..], n); }
    hide Blank, Strip, IsSpace, Numeral, UpperAll, Digit, InCapitals;
    assert (name + suffix)[..|name|] == name && (name + suffix)[|name|..] == suffix;
  }

  /** Whatever is read is a callsign. */
  lemma ParsedIsSpelt(value: string) returns (left: string, name: string, suffix: string, right: string)
    requires ParseCallsign(value).Success?
    ensures Spells(value, left, name, suffix, ParseCallsign(value).value.ssid, right)
  {
    hide IsSpace, IsBlank, Digit;
    left := StripLeftForm(value);
    right := StripRightForm(StripLeft(value));
    var t := Strip(value);
    name, suffix := t[..AlnumRun(t)], t[AlnumRun(t)..];
    if suffix != [] { ValueIsNumeral(suffix[1..]); }
    BlankIff(left);
    BlankIff(right);
    hide Blank, Strip, Numeral, UpperAll;
    assert value == left + (t + right);
    assert t == name + suffix;
  }

  /** Exactly the callsigns are read; everything else is refused as invalid. */
  lemma ParsedIff(value: string)
    ensures ParseCallsign(value).Success? <==> exists left, name, suffix, n, right :: Spells(value, left, name, suffix, n, right)
    ensures ParseCallsign(value).Failure? ==> ParseCallsign(value).error == InvalidCallsign
  {
    if ParseCallsign(value).Success? {
      var left, name, suffix, right := ParsedIsSpelt(value);
    } else if left, name, suffix, n, right :| Spells(value, left, name, suffix, n, right) {
      Capitals(name);
      SpeltIsParsed(value, left, name, suffix, n, right, UpperAll(name));
    }
  }
}
