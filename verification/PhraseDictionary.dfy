/** The phrase dictionary of backend/turbo_compression.py: sequential replacement and its inverse. */
module PhraseDictionary {
  import opened Bytes

  const PHRASES := 31

  /** The phrases in the dictionary's own order; phrase k has token k + 1. */
  function Phrase(k: nat): string
    requires k < PHRASES
  {
    match k
    case 0 => "HELP"
    case 1 => "SOS"
    case 2 => "EMERGENCY"
    case 3 => "ALL CLEAR"
    case 4 => "POSITION"
    case 5 => "WEATHER"
    case 6 => "SUPPLIES NEEDED"
    case 7 => "MEDICAL"
    case 8 => "EVACUATE"
    case 9 => "FIRE"
    case 10 => "FLOOD"
    case 11 => "EARTHQUAKE"
    case 12 => "OK"
    case 13 => "NEGATIVE"
    case 14 => "AFFIRMATIVE"
    case 15 => "STANDBY"
    case 16 => "HEADING TO"
    case 17 => "ETA"
    case 18 => "LATITUDE"
    case 19 => "LONGITUDE"
    case 20 => "ALTITUDE"
    case 21 => "OVER"
    case 22 => "COPY THAT"
    case 23 => "NEED RESCUE"
    case 24 => "PERSONS"
    case 25 => "INJURED"
    case 26 => "LOCATION"
    case 27 => "SEND HELP"
    case 28 => "BATTERY LOW"
    case 29 => "SIGNAL LOST"
    case 30 => "CHECKPOINT"
  }

  function Token(k: nat): (c: char)
    requires k < PHRASES
    ensures c as int == k + 1
  {
    (k + 1) as char
  }

  predicate IsToken(c: char) { 1 <= c as int <= PHRASES }

  /** The phrase that compression replaces in its n-th turn: longest first, dictionary order among equals. */
  function Nth(n: nat): (k: nat)
    requires n < PHRASES
    ensures k < PHRASES
  {
    match n
    case 0 => 6 case 1 => 14 case 2 => 23 case 3 => 28 case 4 => 29 case 5 => 11
    case 6 => 16 case 7 => 30 case 8 => 2 case 9 => 3 case 10 => 19 case 11 => 22
    case 12 => 27 case 13 => 4 case 14 => 8 case 15 => 13 case 16 => 18 case 17 => 20
    case 18 => 26 case 19 => 5 case 20 => 7 case 21 => 15 case 22 => 24 case 23 => 25
    case 24 => 10 case 25 => 0 case 26 => 9 case 27 => 21 case 28 => 1 case 29 => 17
    case 30 => 12
  }

  /** When a phrase's turn comes. */
  function Turn(k: nat): nat
    requires k < PHRASES
  {
    match k
    case 0 => 25 case 1 => 28 case 2 => 8 case 3 => 9 case 4 => 13 case 5 => 19
    case 6 => 0 case 7 => 20 case 8 => 14 case 9 => 26 case 10 => 24 case 11 => 5
    case 12 => 30 case 13 => 15 case 14 => 1 case 15 => 21 case 16 => 6 case 17 => 29
    case 18 => 16 case 19 => 10 case 20 => 17 case 21 => 27 case 22 => 11 case 23 => 2
    case 24 => 22 case 25 => 23 case 26 => 18 case 27 => 12 case 28 => 3 case 29 => 4
    case 30 => 7
  }

  /** str.replace: leftmost occurrences, not overlapping. */
  function Replace(s: string, what: string, with: string): string
    requires what != []
  {
    if |s| < |what| then s
    else if what <= s then with + Replace(s[|what|..], what, with)
    else [s[0]] + Replace(s[1..], what, with)
  }

  /** Compression after its first n turns. */
  function Squeezed(s: string, n: nat): string
    requires n <= PHRASES
  {
    if n == 0 then s
    else
      PhraseFacts(Nth(n - 1));
      Replace(Squeezed(s, n - 1), Phrase(Nth(n - 1)), [Token(Nth(n - 1))])
  }

  /** Decompression after its first n turns, in dictionary order. */
  function Unsqueezed(s: string, n: nat): string
    requires n <= PHRASES
  {
    if n == 0 then s else Replace(Unsqueezed(s, n - 1), [Token(n - 1)], Phrase(n - 1))
  }

  method SqueezeText(text: string) returns (result: string)
    ensures result == Squeezed(text, PHRASES)
  {
    hide Phrase, Nth;
    result := text;
    for n := 0 to PHRASES
      invariant result == Squeezed(text, n)
    {
      PhraseFacts(Nth(n));
      result := Replace(result, Phrase(Nth(n)), [Token(Nth(n))]);
    }
  }

  method UnsqueezeText(text: string) returns (result: string)
    ensures result == Unsqueezed(text, PHRASES)
  {
    result := text;
    for n := 0 to PHRASES
      invariant result == Unsqueezed(text, n)
    {
      result := Replace(result, [Token(n)], Phrase(n));
    }
  }

  // ----- The dictionary -----

  function Length(k: nat): nat
    requires k < PHRASES
  {
    match k
    case 0 => 4 case 1 => 3 case 2 => 9 case 3 => 9 case 4 => 8 case 5 => 7 case 6 => 15 case 7 => 7
    case 8 => 8 case 9 => 4 case 10 => 5 case 11 => 10 case 12 => 2 case 13 => 8 case 14 => 11 case 15 => 7
    case 16 => 10 case 17 => 3 case 18 => 8 case 19 => 9 case 20 => 8 case 21 => 4 case 22 => 9 case 23 => 11
    case 24 => 7 case 25 => 7 case 26 => 8 case 27 => 9 case 28 => 11 case 29 => 11 case 30 => 10
  }

  predicate Capitals(s: string) { forall i | 0 <= i < |s| :: ' ' <= s[i] <= 'Z' }

  /** Phrases are capitals and blanks: no tokens in them, and never shorter than two. */
  lemma PhraseFacts(k: nat)
    requires k < PHRASES
    ensures 2 <= |Phrase(k)| == Length(k) <= 15 && Capitals(Phrase(k))
  {
    if k < 8 { PhrasesTo8(k); } else if k < 16 { PhrasesTo16(k); } else if k < 24 { PhrasesTo24(k); } else { PhrasesTo31(k); }
  }

  lemma PhrasesTo8(k: nat)
    requires 0 <= k < 8
    ensures 2 <= |Phrase(k)| == Length(k) <= 15 && Capitals(Phrase(k))
  {}

  lemma PhrasesTo16(k: nat)
    requires 8 <= k < 16
    ensures 2 <= |Phrase(k)| == Length(k) <= 15 && Capitals(Phrase(k))
  {}

  lemma PhrasesTo24(k: nat)
    requires 16 <= k < 24
    ensures 2 <= |Phrase(k)| == Length(k) <= 15 && Capitals(Phrase(k))
  {}

  lemma PhrasesTo31(k: nat)
    requires 24 <= k < 31
    ensures 2 <= |Phrase(k)| == Length(k) <= 15 && Capitals(Phrase(k))
  {}

  /** The turns are the stable sort by decreasing length. */
  lemma OrderIsStableSort(n: nat)
    requires n < PHRASES
    ensures Turn(n) < PHRASES && Nth(Turn(n)) == n
    ensures n + 1 < PHRASES ==>
              |Phrase(Nth(n))| > |Phrase(Nth(n + 1))| || (|Phrase(Nth(n))| == |Phrase(Nth(n + 1))| && Nth(n) < Nth(n + 1))
  {
    TurnsAreNth(n);
    hide Phrase, Capitals, Nth, Turn;
    PhraseFacts(Nth(n));
    if n + 1 < PHRASES {
      PhraseFacts(Nth(n + 1));
      LengthsDescend(n);
    }
  }

  lemma TurnsAreNth(n: nat)
    requires n < PHRASES
    ensures Turn(n) < PHRASES && Nth(Turn(n)) == n
  {}

  lemma LengthsDescend(n: nat)
    requires n + 1 < PHRASES
    ensures Length(Nth(n)) > Length(Nth(n + 1)) || (Length(Nth(n)) == Length(Nth(n + 1)) && Nth(n) < Nth(n + 1))
  {}

  // ----- Replacement and expansion -----

  /** The text with every token below n spelt out. */
  function Expanded(s: string, n: nat): string
    requires n <= PHRASES
  {
    if s == [] then [] else Spelt(s[0], n) + Expanded(s[1..], n)
  }

  function Spelt(c: char, n: nat): string
    requires n <= PHRASES
  {
    if 1 <= c as int <= n then Phrase(c as int - 1) else [c]
  }

  lemma {:induction false} ExpandedConcat(a: string, b: string, n: nat)
    requires n <= PHRASES
    ensures Expanded(a + b, n) == Expanded(a, n) + Expanded(b, n)
    decreases a
  {
    hide Spelt;
    if a == [] {
      assert a + b == b;
    } else {
      assert (a + b)[1..] == a[1..] + b;
      ExpandedConcat(a[1..], b, n);
      Associate(Spelt(a[0], n), Expanded(a[1..], n), Expanded(b, n));
    }
  }

  lemma {:induction false} ExpandedCapitals(s: string, n: nat)
    requires n <= PHRASES && Capitals(s)
    ensures Expanded(s, n) == s
    decreases s
  {
    hide Phrase;
    if s != [] {
      assert Capitals(s[1..]);
      ExpandedCapitals(s[1..], n);
      assert s == [s[0]] + s[1..];
    }
  }

  lemma ExpandedOne(c: char, n: nat)
    requires n <= PHRASES
    ensures Expanded([c], n) == Spelt(c, n)
  {
    hide Spelt;
    assert [c][1..] == [];
    assert Spelt(c, n) + [] == Spelt(c, n);
  }

  /** Replacing a phrase by its token does not change what the text expands to. */
  lemma {:induction false} ReplaceKeepsExpansion(s: string, k: nat)
    requires k < PHRASES && Phrase(k) != []
    ensures Expanded(Replace(s, Phrase(k), [Token(k)]), PHRASES) == Expanded(s, PHRASES)
    decreases s
  {
    hide Phrase, Spelt, Expanded, Capitals;
    var p, t := Phrase(k), [Token(k)];
    if |s| < |p| {
    } else if p <= s {
      var rest := s[|p|..];
      assert s == p + rest;
      ReplaceKeepsExpansion(rest, k);
      ExpandedConcat(p, rest, PHRASES);
      ExpandedConcat(t, Replace(rest, p, t), PHRASES);
      TokenExpands(k);
    } else {
      var rest := s[1..];
      assert s == [s[0]] + rest;
      ReplaceKeepsExpansion(rest, k);
      ExpandedConcat([s[0]], rest, PHRASES);
      ExpandedConcat([s[0]], Replace(rest, p, t), PHRASES);
    }
  }

  lemma TokenExpands(k: nat)
    requires k < PHRASES
    ensures Expanded([Token(k)], PHRASES) == Expanded(Phrase(k), PHRASES) == Phrase(k)
  {
    PhraseFacts(k);
    hide Phrase, Expanded;
    ExpandedOne(Token(k), PHRASES);
    ExpandedCapitals(Phrase(k), PHRASES);
  }

  lemma {:induction false} SqueezedKeepsExpansion(s: string, n: nat)
    requires n <= PHRASES
    ensures Expanded(Squeezed(s, n), PHRASES) == Expanded(s, PHRASES)
    decreases n
  {
    hide Phrase, Expanded;
    if n > 0 {
      SqueezedKeepsExpansion(s, n - 1);
      PhraseFacts(Nth(n - 1));
      ReplaceKeepsExpansion(Squeezed(s, n - 1), Nth(n - 1));
    }
  }

  /** Replacing a single character everywhere. */
  function Substituted(s: string, c: char, with: string): string {
    if s == [] then [] else (if s[0] == c then with else [s[0]]) + Substituted(s[1..], c, with)
  }

  lemma {:induction false} ReplaceOne(s: string, c: char, with: string)
    ensures Replace(s, [c], with) == Substituted(s, c, with)
    decreases s
  {
    if s != [] {
      ReplaceOne(s[1..], c, with);
      assert [c] <= s <==> s[0] == c;
    }
  }

  lemma {:induction false} SubstitutedConcat(a: string, b: string, c: char, with: string)
    ensures Substituted(a + b, c, with) == Substituted(a, c, with) + Substituted(b, c, with)
    decreases a
  {
    if a == [] {
      assert a + b == b;
    } else {
      assert (a + b)[1..] == a[1..] + b;
      SubstitutedConcat(a[1..], b, c, with);
      Associate(if a[0] == c then with else [a[0]], Substituted(a[1..], c, with), Substituted(b, c, with));
    }
  }

  lemma {:induction false} SubstitutedAbsent(s: string, c: char, with: string)
    requires c !in s
    ensures Substituted(s, c, with) == s
    decreases s
  {
    if s != [] {
      SubstitutedAbsent(s[1..], c, with);
      assert s == [s[0]] + s[1..];
    }
  }

  /** One more turn of decompression spells out one more token. */
  lemma {:induction false} ExpandedNext(s: string, k: nat)
    requires k < PHRASES
    ensures Substituted(Expanded(s, k), Token(k), Phrase(k)) == Expanded(s, k + 1)
    decreases s
  {
    hide Phrase, Spelt, Token;
    if s != [] {
      ExpandedNext(s[1..], k);
      SubstitutedConcat(Spelt(s[0], k), Expanded(s[1..], k), Token(k), Phrase(k));
      SpeltNext(s[0], k);
    }
  }

  lemma SpeltNext(c: char, k: nat)
    requires k < PHRASES
    ensures Substituted(Spelt(c, k), Token(k), Phrase(k)) == Spelt(c, k + 1)
  {
    hide Phrase;
    if 1 <= c as int <= k {
      PhraseFacts(c as int - 1);
      SubstitutedAbsent(Spelt(c, k), Token(k), Phrase(k));
    } else {
      assert [c][1..] == [];
      assert Phrase(k) + [] == Phrase(k);
    }
  }

  lemma {:induction false} NothingSpelt(s: string)
    ensures Expanded(s, 0) == s
    decreases s
  {
    if s != [] {
      NothingSpelt(s[1..]);
    }
  }

  lemma {:induction false} UnsqueezedIsExpanded(s: string, n: nat)
    requires n <= PHRASES
    ensures Unsqueezed(s, n) == Expanded(s, n)
    decreases n
  {
    hide Phrase, Expanded;
    if n == 0 {
      NothingSpelt(s);
    } else {
      UnsqueezedIsExpanded(s, n - 1);
      ReplaceOne(Expanded(s, n - 1), Token(n - 1), Phrase(n - 1));
      ExpandedNext(s, n - 1);
    }
  }

  /**
   * Thirty-one replacements undone by thirty-one others, whatever overlaps: decompression of a
   * compressed text is the text with the tokens it already held spelt out.
   */
  lemma UnsqueezeSqueezed(text: string)
    ensures Unsqueezed(Squeezed(text, PHRASES), PHRASES) == Expanded(text, PHRASES)
  {
    hide Expanded, Squeezed, Unsqueezed;
    UnsqueezedIsExpanded(Squeezed(text, PHRASES), PHRASES);
    SqueezedKeepsExpansion(text, PHRASES);
  }

  predicate HasToken(s: string) { exists i :: 0 <= i < |s| && IsToken(s[i]) }

  lemma {:induction false} ExpandedLonger(s: string)
    ensures |Expanded(s, PHRASES)| >= |s|
    ensures HasToken(s) ==> |Expanded(s, PHRASES)| > |s|
    ensures !HasToken(s) ==> Expanded(s, PHRASES) == s
    decreases s
  {
    if s != [] {
      ExpandedLonger(s[1..]);
      if IsToken(s[0]) {
        PhraseFacts(s[0] as int - 1);
      }
      hide Phrase;
      assert s == [s[0]] + s[1..];
      assert HasToken(s) <==> IsToken(s[0]) || HasToken(s[1..]) by {
        if HasToken(s) && !IsToken(s[0]) {
          var i :| 0 <= i < |s| && IsToken(s[i]);
          assert s[1..][i - 1] == s[i];
        }
        if HasToken(s[1..]) {
          var i :| 0 <= i < |s[1..]| && IsToken(s[1..][i]);
          assert s[i + 1] == s[1..][i];
        }
      }
    }
  }

  /** The round trip holds exactly for texts without the characters U+0001 to U+001F. */
  lemma RoundTrip(text: string)
    ensures Unsqueezed(Squeezed(text, PHRASES), PHRASES) == text <==> !HasToken(text)
  {
    hide Unsqueezed, Squeezed, Expanded, HasToken;
    UnsqueezeSqueezed(text);
    ExpandedLonger(text);
  }

  // ----- What compression leaves of a text -----

  /** The characters Latin-1 cannot encode. */
  predicate Wide(s: string) { exists i :: 0 <= i < |s| && s[i] as int > 0xFF }

  lemma WideConcat(a: string, b: string)
    ensures Wide(a + b) <==> Wide(a) || Wide(b)
  {
    if Wide(a) {
      var i :| 0 <= i < |a| && a[i] as int > 0xFF;
      assert (a + b)[i] == a[i];
    }
    if Wide(b) {
      var i :| 0 <= i < |b| && b[i] as int > 0xFF;
      assert (a + b)[|a| + i] == b[i];
    }
  }

  /** No replacement lengthens the text, and none removes or adds a character that Latin-1 cannot encode. */
  lemma {:induction false} ReplaceKeepsWide(s: string, k: nat)
    requires k < PHRASES && Phrase(k) != []
    ensures |Replace(s, Phrase(k), [Token(k)])| <= |s|
    ensures Wide(Replace(s, Phrase(k), [Token(k)])) <==> Wide(s)
    decreases s
  {
    PhraseFacts(k);
    hide Phrase, Wide;
    var p, t := Phrase(k), [Token(k)];
    if |s| < |p| {
    } else if p <= s {
      var rest := s[|p|..];
      assert s == p + rest;
      ReplaceKeepsWide(rest, k);
      WideConcat(p, rest);
      WideConcat(t, Replace(rest, p, t));
      NotWide(p);
      TokenNotWide(k);
    } else {
      var rest := s[1..];
      assert s == [s[0]] + rest;
      ReplaceKeepsWide(rest, k);
      WideConcat([s[0]], rest);
      WideConcat([s[0]], Replace(rest, p, t));
    }
  }

  lemma NotWide(s: string)
    requires Capitals(s)
    ensures !Wide(s)
  {}

  lemma TokenNotWide(k: nat)
    requires k < PHRASES
    ensures !Wide([Token(k)])
  {}

  lemma {:induction false} SqueezedKeepsWide(s: string, n: nat)
    requires n <= PHRASES
    ensures |Squeezed(s, n)| <= |s| && (Wide(Squeezed(s, n)) <==> Wide(s))
    decreases n
  {
    hide Phrase, Wide;
    if n > 0 {
      SqueezedKeepsWide(s, n - 1);
      PhraseFacts(Nth(n - 1));
      ReplaceKeepsWide(Squeezed(s, n - 1), Nth(n - 1));
    }
  }
}
