/** What the phrase dictionary leaves of a text: no phrase at all (backend/turbo_compression.py). */
module SqueezedPhrases {
  import opened PhraseDictionary

  // ----- One replacement -----

  lemma TokenLeads(t: char, rest: string, q: string)
    requires q != [] && t !in q
    ensures !(q <= [t] + rest)
  {
    assert ([t] + rest)[0] == t;
  }

  /** What a replaced text begins with and does not hold the token was there before. */
  lemma {:induction false} PrefixWasThere(s: string, p: string, t: char, q: string)
    requires p != [] && t !in q && q <= Replace(s, p, [t])
    ensures q <= s
    decreases s
  {
    if |s| >= |p| && q != [] {
      if p <= s {
        TokenLeads(t, Replace(s[|p|..], p, [t]), q);
        assert false;
      } else {
        assert q[1..] <= Replace(s[1..], p, [t]);
        PrefixWasThere(s[1..], p, t, q[1..]);
        assert q == [q[0]] + q[1..];
      }
    }
  }

  /** Nor does a replacement make such a string appear anywhere else. */
  lemma {:induction false} WasThere(s: string, p: string, t: char, q: string, i: nat) returns (j: nat)
    requires p != [] && q != [] && t !in q && i <= |Replace(s, p, [t])| && q <= Replace(s, p, [t])[i..]
    ensures j <= |s| && q <= s[j..]
    ensures q != p
    decreases s
  {
    var r := Replace(s, p, [t]);
    if |s| < |p| {
      j := i;
    } else if p <= s {
      if i == 0 {
        TokenLeads(t, Replace(s[|p|..], p, [t]), q);
        assert false;
      } else {
        assert r[i..] == Replace(s[|p|..], p, [t])[i - 1..];
        j := WasThere(s[|p|..], p, t, q, i - 1);
        assert s[|p|..][j..] == s[|p| + j..];
        j := |p| + j;
      }
    } else if i == 0 {
      assert r[0..] == r;
      PrefixWasThere(s, p, t, q);
      j := 0;
      assert s[0..] == s;
    } else {
      assert r[i..] == Replace(s[1..], p, [t])[i - 1..];
      j := WasThere(s[1..], p, t, q, i - 1);
      assert s[1..][j..] == s[1 + j..];
      j := 1 + j;
    }
  }

  /** A replacement changes nothing or shortens. */
  lemma {:induction false} SameOrShorter(s: string, p: string, t: char)
    requires |p| >= 2
    ensures Replace(s, p, [t]) == s || |Replace(s, p, [t])| < |s|
    ensures |s| <= |p| && s != p ==> Replace(s, p, [t]) == s
    ensures s == p ==> Replace(s, p, [t]) == [t]
    decreases s
  {
    if |s| >= |p| {
      if p <= s {
        SameOrShorter(s[|p|..], p, t);
      } else {
        SameOrShorter(s[1..], p, t);
        assert s == [s[0]] + s[1..];
      }
    }
  }

  // ----- All of them -----

  predicate Holds(s: string, k: nat)
    requires k < PHRASES
  {
    exists i :: 0 <= i <= |s| && Phrase(k) <= s[i..]
  }

  lemma {:induction false} GoneAfter(text: string, n: nat, m: nat)
    requires m < n <= PHRASES
    ensures !Holds(Squeezed(text, n), Nth(m))
    decreases n
  {
    hide Phrase, Nth;
    var s, p, t := Squeezed(text, n - 1), Phrase(Nth(n - 1)), Token(Nth(n - 1));
    PhraseFacts(Nth(n - 1));
    PhraseFacts(Nth(m));
    if Holds(Squeezed(text, n), Nth(m)) {
      var i :| 0 <= i <= |Squeezed(text, n)| && Phrase(Nth(m)) <= Squeezed(text, n)[i..];
      var j := WasThere(s, p, t, Phrase(Nth(m)), i);
      if m < n - 1 {
        GoneAfter(text, n - 1, m);
      }
      assert false;
    }
  }

  /** No phrase of the dictionary is left anywhere in a compressed text. */
  lemma NoPhraseLeft(text: string, k: nat, i: nat)
    requires k < PHRASES && i <= |Squeezed(text, PHRASES)|
    ensures !(Phrase(k) <= Squeezed(text, PHRASES)[i..])
  {
    hide Squeezed;
    OrderIsStableSort(k);
    GoneAfter(text, PHRASES, Turn(k));
    hide Phrase, Turn, Nth;
  }

  lemma {:induction false} NothingFound(s: string, p: string, t: char)
    requires p != [] && forall i | 0 <= i <= |s| :: !(p <= s[i..])
    ensures Replace(s, p, [t]) == s
    decreases s
  {
    assert s[0..] == s;
    if |s| >= |p| {
      assert forall i | 0 <= i <= |s[1..]| :: s[1..][i..] == s[i + 1..];
      NothingFound(s[1..], p, t);
      assert s == [s[0]] + s[1..];
    }
  }

  lemma {:induction false} NoneReplaced(text: string, n: nat)
    requires n <= PHRASES && forall k | 0 <= k < PHRASES :: !Holds(text, k)
    ensures Squeezed(text, n) == text
    decreases n
  {
    hide Phrase, Nth;
    if n > 0 {
      NoneReplaced(text, n - 1);
      PhraseFacts(Nth(n - 1));
      assert !Holds(text, Nth(n - 1));
      NothingFound(text, Phrase(Nth(n - 1)), Token(Nth(n - 1)));
    }
  }

  lemma {:induction false} SqueezedSameOrShorter(text: string, n: nat)
    requires n <= PHRASES
    ensures Squeezed(text, n) == text || |Squeezed(text, n)| < |text|
    decreases n
  {
    hide Phrase, Nth;
    if n > 0 {
      SqueezedSameOrShorter(text, n - 1);
      PhraseFacts(Nth(n - 1));
      SameOrShorter(Squeezed(text, n - 1), Phrase(Nth(n - 1)), Token(Nth(n - 1)));
    }
  }

  /** A text comes out shorter exactly when it holds a phrase, and otherwise as it is. */
  lemma ShorterIff(text: string)
    ensures |Squeezed(text, PHRASES)| < |text| <==> exists k :: 0 <= k < PHRASES && Holds(text, k)
    ensures |Squeezed(text, PHRASES)| < |text| || Squeezed(text, PHRASES) == text
  {
    SqueezedSameOrShorter(text, PHRASES);
    if k :| 0 <= k < PHRASES && Holds(text, k) {
      hide Squeezed, Phrase;
      var i :| 0 <= i <= |text| && Phrase(k) <= text[i..];
      if Squeezed(text, PHRASES) == text {
        NoPhraseLeft(text, k, i);
        assert false;
      }
    } else {
      NoneReplaced(text, PHRASES);
    }
  }

  // ----- A phrase on its own -----

  /** Which phrase it is, by length and two letters. */
  function Recognized(s: string): nat
    requires |s| >= 2
  {
    match |s|
    case 2 => 12
    case 3 => if s[0] == 'S' then 1 else 17
    case 4 => if s[0] == 'H' then 0 else if s[0] == 'F' then 9 else 21
    case 5 => 10
    case 7 => if s[0] == 'W' then 5 else if s[0] == 'M' then 7 else if s[0] == 'S' then 15 else if s[0] == 'P' then 24 else 25
    case 8 => if s[0] == 'P' then 4 else if s[0] == 'E' then 8 else if s[0] == 'N' then 13
              else if s[0] == 'A' then 20 else if s[1] == 'A' then 18 else 26
    case 9 => if s[0] == 'E' then 2 else if s[0] == 'A' then 3 else if s[0] == 'L' then 19 else if s[0] == 'C' then 22 else 27
    case 10 => if s[0] == 'E' then 11 else if s[0] == 'H' then 16 else 30
    case 11 => if s[0] == 'A' then 14 else if s[0] == 'N' then 23 else if s[0] == 'B' then 28 else 29
    case _ => 6
  }

  lemma RecognizedTo16(k: nat)
    requires k < 16
    ensures |Phrase(k)| >= 2 && Recognized(Phrase(k)) == k
  {}

  lemma RecognizedTo31(k: nat)
    requires 16 <= k < PHRASES
    ensures |Phrase(k)| >= 2 && Recognized(Phrase(k)) == k
  {}

  /** The phrases are different. */
  lemma PhrasesDiffer(j: nat, k: nat)
    requires j < PHRASES && k < PHRASES && j != k
    ensures Phrase(j) != Phrase(k)
  {
    if j < 16 { RecognizedTo16(j); } else { RecognizedTo31(j); }
    if k < 16 { RecognizedTo16(k); } else { RecognizedTo31(k); }
    hide Phrase, Recognized;
  }

  lemma {:induction false} LongerFirst(m: nat, n: nat)
    requires m <= n < PHRASES
    ensures |Phrase(Nth(m))| >= |Phrase(Nth(n))|
    decreases n - m
  {
    hide Phrase, Nth;
    if m < n {
      OrderIsStableSort(m);
      LongerFirst(m + 1, n);
    }
  }

  lemma {:induction false} UntilItsTurn(k: nat, n: nat)
    requires k < PHRASES && n <= Turn(k) < PHRASES && Nth(Turn(k)) == k
    ensures Squeezed(Phrase(k), n) == Phrase(k)
    decreases n
  {
    hide Phrase, Nth, Turn, Replace;
    if n > 0 {
      UntilItsTurn(k, n - 1);
      LongerFirst(n - 1, Turn(k));
      TurnIsUnique(n - 1);
      PhrasesDiffer(Nth(n - 1), k);
      PhraseFacts(Nth(n - 1));
      SameOrShorter(Phrase(k), Phrase(Nth(n - 1)), Token(Nth(n - 1)));
    }
  }

  lemma TurnIsUnique(n: nat)
    requires n < PHRASES
    ensures Turn(Nth(n)) == n
  {}

  lemma {:induction false} BehindItsTurn(k: nat, n: nat)
    requires k < PHRASES && Turn(k) < n <= PHRASES && Nth(Turn(k)) == k
    ensures Squeezed(Phrase(k), n) == [Token(k)]
    decreases n
  {
    hide Phrase, Nth, Turn, Replace;
    PhraseFacts(Nth(n - 1));
    if n - 1 > Turn(k) {
      BehindItsTurn(k, n - 1);
      SameOrShorter([Token(k)], Phrase(Nth(n - 1)), Token(Nth(n - 1)));
    } else {
      UntilItsTurn(k, n - 1);
      SameOrShorter(Phrase(k), Phrase(k), Token(k));
    }
  }

  /** Each phrase alone becomes its own token, also where a shorter phrase is part of it. */
  lemma PhraseIsOneToken(k: nat)
    requires k < PHRASES
    ensures Squeezed(Phrase(k), PHRASES) == [(k + 1) as char]
  {
    OrderIsStableSort(k);
    BehindItsTurn(k, PHRASES);
    hide Phrase, Nth, Turn, Squeezed;
  }
}
