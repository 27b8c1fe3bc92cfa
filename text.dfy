/** Character classes and the two string utilities the matcher leans on:
    Java's `String.split("\\s+")` and `String.join(" ", words)`.
    Characters are modelled as ASCII where the source relies on locale-free
    behaviour (`toLowerCase(Locale.ROOT)`, `Character.isUpperCase`). A `char` is a
    Unicode scalar value, not a UTF-16 code unit: outside the Basic Multilingual
    Plane, lengths here count one per character where Java counts two. */
module Text {

  /** Java's regex class `\s`: space, tab, newline, vertical tab, form feed, carriage return. */
  predicate IsWs(c: char) {
    c == ' ' || 9 <= c as int <= 13
  }

  /** Java's regex class `\w`: ASCII letters, digits and underscore. */
  predicate IsWordChar(c: char) {
    ('a' <= c <= 'z') || ('A' <= c <= 'Z') || ('0' <= c <= '9') || c == '_'
  }

  predicate IsDigit(c: char) {
    '0' <= c <= '9'
  }

  predicate IsUpper(c: char) {
    'A' <= c <= 'Z'
  }

  function LowerChar(c: char): char {
    if IsUpper(c) then (c as int + 32) as char else c
  }

  /** `toLowerCase(Locale.ROOT)` restricted to ASCII: length-preserving, char by char. */
  function Lower(s: string): (r: string)
    ensures |r| == |s|
    ensures forall i :: 0 <= i < |s| ==> r[i] == LowerChar(s[i])
  {
    seq(|s|, i requires 0 <= i < |s| => LowerChar(s[i]))
  }

  /** Lower-casing twice is lower-casing once. */
  lemma LowerIdempotent(s: string)
    ensures Lower(Lower(s)) == Lower(s)
  {
    forall i | 0 <= i < |s| ensures Lower(Lower(s))[i] == Lower(s)[i] {
      assert !IsUpper(LowerChar(s[i]));
    }
  }

  /** A word as `split("\\s+")` produces it: no whitespace inside. */
  predicate NoWs(w: string) {
    forall i :: 0 <= i < |w| ==> !IsWs(w[i])
  }

  /** Every whitespace character is a plain space. */
  predicate WsAreSpaces(s: string) {
    forall i :: 0 <= i < |s| && IsWs(s[i]) ==> s[i] == ' '
  }

  /** No two whitespace characters in a row. */
  predicate NoWsRun(s: string) {
    forall i :: 0 <= i < |s| - 1 && IsWs(s[i]) ==> !IsWs(s[i + 1])
  }

  /** Neither the first nor the last character is whitespace. */
  predicate NoEdgeWs(s: string) {
    s == [] || (!IsWs(s[0]) && !IsWs(s[|s| - 1]))
  }

  /** Words separated by exactly one space, nothing at either end. */
  predicate SingleSpaced(s: string) {
    NoEdgeWs(s) && WsAreSpaces(s) && NoWsRun(s)
  }

  /** Index of the first whitespace character, or |s| if there is none. */
  function FirstWs(s: string): (k: nat)
    ensures k <= |s|
    ensures forall i :: 0 <= i < k ==> !IsWs(s[i])
    ensures k < |s| ==> IsWs(s[k])
  {
    if s == [] then 0
    else if IsWs(s[0]) then 0
    else 1 + FirstWs(s[1..])
  }

  /** Drops the leading run of whitespace. */
  function DropWs(s: string): (r: string)
    ensures |r| <= |s| && r == s[|s| - |r|..]
    ensures forall i :: 0 <= i < |s| - |r| ==> IsWs(s[i])
    ensures r == [] || !IsWs(r[0])
  {
    if s != [] && IsWs(s[0]) then DropWs(s[1..]) else s
  }

  /** Splits at every maximal run of whitespace, keeping empty pieces at both ends. */
  function Pieces(s: string): (r: seq<string>)
    ensures |r| >= 1
    ensures forall i :: 0 <= i < |r| ==> NoWs(r[i])
    ensures forall i :: 0 < i < |r| - 1 ==> r[i] != []
    ensures s != [] && !IsWs(s[0]) ==> r[0] != []
    decreases |s|
  {
    var k := FirstWs(s);
    if k == |s| then [s]
    else
      var rest := DropWs(s[k..]);
      [s[..k]] + Pieces(rest)
  }

  /** Removes trailing empty strings, as Java's `split` does. */
  function DropTrailingEmpty(ps: seq<string>): (r: seq<string>)
    ensures |r| <= |ps| && r == ps[..|r|]
    ensures r == [] || r[|r| - 1] != []
    ensures forall i :: |r| <= i < |ps| ==> ps[i] == []
  {
    if ps != [] && ps[|ps| - 1] == [] then DropTrailingEmpty(ps[..|ps| - 1]) else ps
  }

  /** `s.split("\\s+")`: a string with no whitespace (the empty string included)
      gives itself; otherwise the pieces, a leading empty piece kept and trailing
      empty pieces dropped. Only the first word can be empty. */
  function Split(s: string): (r: seq<string>)
    ensures forall i :: 0 <= i < |r| ==> NoWs(r[i])
    ensures forall i :: 0 < i < |r| ==> r[i] != []
  {
    if FirstWs(s) == |s| then [s] else DropTrailingEmpty(Pieces(s))
  }

  /** `String.join(" ", words)`: the words in order with one space between
      neighbours, so it starts with the first word and has as many characters as
      the words together plus one per separating space. */
  function Join(ws: seq<string>): (r: string)
    ensures ws == [] ==> r == ""
    ensures ws != [] ==> ws[0] <= r
    ensures ws != [] ==> |r| == TotalLength(ws) + |ws| - 1
  {
    if |ws| == 0 then ""
    else if |ws| == 1 then ws[0]
    else ws[0] + " " + Join(ws[1..])
  }

  /** The number of characters in all the words together. */
  function TotalLength(ws: seq<string>): nat {
    if ws == [] then 0 else |ws[0]| + TotalLength(ws[1..])
  }

  /** Every word non-empty and free of whitespace. */
  predicate ProperWords(ws: seq<string>) {
    forall i :: 0 <= i < |ws| ==> ws[i] != [] && NoWs(ws[i])
  }

  lemma {:induction false} JoinOfProperWords(ws: seq<string>)
    requires |ws| >= 1 && ProperWords(ws)
    ensures Join(ws) != [] && Join(ws)[0] == ws[0][0]
    ensures SingleSpaced(Join(ws))
  {
    if |ws| > 1 {
      JoinOfProperWords(ws[1..]);
      var w, j := ws[0], Join(ws[1..]);
      var s := w + " " + j;
      assert Join(ws) == s;
      forall i | 0 <= i < |s| - 1 ensures IsWs(s[i]) ==> !IsWs(s[i + 1]) {
        if i < |w| {
          assert s[i] == w[i];
        } else if i == |w| {
          assert s[i + 1] == j[0];
        } else {
          assert s[i] == j[i - |w| - 1] && s[i + 1] == j[i - |w|];
        }
      }
      forall i | 0 <= i < |s| ensures IsWs(s[i]) ==> s[i] == ' ' {
        if i < |w| {
          assert s[i] == w[i];
        } else if i > |w| {
          assert s[i] == j[i - |w| - 1];
        }
      }
      assert s[|s| - 1] == j[|j| - 1];
    } else {
      assert Join(ws) == ws[0];
    }
  }

  lemma {:induction false} FirstWsOfWord(w: string, t: string)
    requires NoWs(w)
    requires t == [] || IsWs(t[0])
    ensures FirstWs(w + t) == |w|
    decreases |w|
  {
    if w != [] {
      assert (w + t)[1..] == w[1..] + t;
      FirstWsOfWord(w[1..], t);
    } else {
      assert w + t == t;
    }
  }

  /** Splitting a joined list of proper words gives the words back. */
  lemma {:induction false} SplitJoin(ws: seq<string>)
    requires |ws| >= 1 && ProperWords(ws)
    ensures Split(Join(ws)) == ws
  {
    if |ws| == 1 {
      SplitWord(ws[0]);
    } else {
      JoinHasWs(ws);
      PiecesJoin(ws);
      DropTrailingEmptyKeeps(ws);
    }
  }

  /** A word splits into itself. */
  lemma SplitWord(w: string)
    requires NoWs(w)
    ensures Split(Join([w])) == [w]
  {
    FirstWsOfWord(w, []);
    assert w + [] == w;
  }

  /** Joining two or more words puts whitespace right after the first. */
  lemma JoinHasWs(ws: seq<string>)
    requires |ws| >= 2 && ProperWords(ws)
    ensures FirstWs(Join(ws)) == |ws[0]| < |Join(ws)|
  {
    var j := Join(ws[1..]);
    assert Join(ws) == ws[0] + (" " + j);
    FirstWsOfWord(ws[0], " " + j);
  }

  /** A list whose last entry is non-empty loses nothing to DropTrailingEmpty. */
  lemma DropTrailingEmptyKeeps(ps: seq<string>)
    requires ps != [] && ps[|ps| - 1] != []
    ensures DropTrailingEmpty(ps) == ps
  {
  }

  lemma {:induction false} PiecesJoin(ws: seq<string>)
    requires |ws| >= 1 && ProperWords(ws)
    ensures Pieces(Join(ws)) == ws
  {
    var w := ws[0];
    if |ws| == 1 {
      assert Join(ws) == w;
      FirstWsOfWord(w, []);
      assert w + [] == w;
    } else {
      var j := Join(ws[1..]);
      assert Join(ws) == w + (" " + j);
      JoinOfProperWords(ws[1..]);
      PiecesJoin(ws[1..]);
      PiecesCons(w, j, ws[1..]);
      assert [w] + ws[1..] == ws;
    }
  }

  /** A word, one space and text starting with a visible character split into the
      word followed by the pieces of that text. */
  lemma PiecesCons(w: string, j: string, rest: seq<string>)
    requires NoWs(w) && j != [] && !IsWs(j[0]) && Pieces(j) == rest
    ensures Pieces(w + (" " + j)) == [w] + rest
  {
    var s := w + (" " + j);
    FirstWsOfWord(w, " " + j);
    var k := |w|;
    assert s[..k] == w && s[k + 1..] == j;
    DropOneWs(s[k..]);
    assert s[k..][1..] == j;
    PiecesAt(s, k);
  }

  lemma ProperWordsCons(w: string, qs: seq<string>)
    requires w != [] && NoWs(w) && ProperWords(qs)
    ensures ProperWords([w] + qs)
  {
    var ps := [w] + qs;
    forall i | 0 <= i < |ps| ensures ps[i] != [] && NoWs(ps[i]) {
      if i > 0 { assert ps[i] == qs[i - 1]; }
    }
  }

  /** Joining the words of a single-spaced string gives the string back. */
  lemma {:induction false} JoinSplit(s: string)
    requires SingleSpaced(s)
    ensures Join(Split(s)) == s
    ensures s != [] ==> |Split(s)| >= 1 && ProperWords(Split(s))
  {
    if s == [] {
      assert Split(s) == [s];
    } else {
      var ps := PiecesOfSingleSpaced(s);
      var k := FirstWs(s);
      if k < |s| {
        assert ps != [] && ps[|ps| - 1] != [];
        assert DropTrailingEmpty(ps) == ps;
      }
    }
  }

  lemma SuffixSingleSpaced(s: string, k: nat)
    requires SingleSpaced(s) && k <= |s|
    requires k < |s| ==> !IsWs(s[k])
    ensures SingleSpaced(s[k..])
  {
    var t := s[k..];
    forall i | 0 <= i < |t| - 1 && IsWs(t[i]) ensures !IsWs(t[i + 1]) {
      assert t[i] == s[k + i] && t[i + 1] == s[k + i + 1];
    }
    forall i | 0 <= i < |t| && IsWs(t[i]) ensures t[i] == ' ' {
      assert t[i] == s[k + i];
    }
  }

  lemma AroundSpace(s: string, k: nat)
    requires k < |s| && s[k] == ' '
    ensures s == s[..k] + " " + s[k + 1..]
  {
  }

  lemma DropOneWs(u: string)
    requires u != [] && IsWs(u[0])
    requires |u| == 1 || !IsWs(u[1])
    ensures DropWs(u) == u[1..]
  {
  }

  /** In a single-spaced string the first whitespace is one space between two words. */
  lemma FirstSpace(s: string) returns (k: nat)
    requires SingleSpaced(s) && FirstWs(s) < |s|
    ensures k == FirstWs(s) && 0 < k < |s| - 1
    ensures s[..k] != [] && NoWs(s[..k])
    ensures SingleSpaced(s[k + 1..])
    ensures s == s[..k] + " " + s[k + 1..]
    ensures Pieces(s) == [s[..k]] + Pieces(s[k + 1..])
  {
    k := FirstSpaceFacts(s);
    PiecesAt(s, k);
  }

  lemma PiecesAt(s: string, k: nat)
    requires k == FirstWs(s) < |s| - 1 && DropWs(s[k..]) == s[k + 1..]
    ensures Pieces(s) == [s[..k]] + Pieces(s[k + 1..])
  {
  }

  lemma FirstSpaceFacts(s: string) returns (k: nat)
    requires SingleSpaced(s) && FirstWs(s) < |s|
    ensures k == FirstWs(s) && 0 < k < |s| - 1
    ensures s[..k] != [] && NoWs(s[..k])
    ensures DropWs(s[k..]) == s[k + 1..]
    ensures SingleSpaced(s[k + 1..])
    ensures s == s[..k] + " " + s[k + 1..]
  {
    k := FirstWs(s);
    assert 0 < k < |s| - 1 by {
      assert !IsWs(s[0]) && !IsWs(s[|s| - 1]) && IsWs(s[k]);
    }
    assert s[k] == ' ' && !IsWs(s[k + 1]) by {
      assert IsWs(s[k]);
    }
    assert NoWs(s[..k]) by {
      forall i | 0 <= i < k ensures !IsWs(s[..k][i]) {
        assert s[..k][i] == s[i];
      }
    }
    DropOneWs(s[k..]);
    assert s[k..][1..] == s[k + 1..];
    SuffixSingleSpaced(s, k + 1);
    AroundSpace(s, k);
  }

  /** The pieces of a non-empty single-spaced string are proper words. */
  lemma {:induction false} PiecesProper(s: string)
    requires s != [] && SingleSpaced(s)
    ensures ProperWords(Pieces(s))
    decreases |s|
  {
    if FirstWs(s) < |s| {
      var k := FirstSpace(s);
      PiecesProper(s[k + 1..]);
      ProperWordsCons(s[..k], Pieces(s[k + 1..]));
    }
  }

  /** The pieces of a single-spaced string join back to it. */
  lemma {:induction false} PiecesJoinBack(s: string)
    requires s != [] && SingleSpaced(s)
    ensures Join(Pieces(s)) == s
    decreases |s|
  {
    if FirstWs(s) < |s| {
      var k := FirstSpace(s);
      var t := s[k + 1..];
      PiecesJoinBack(t);
      var ps := Pieces(s);
      assert ps[1..] == Pieces(t);
      assert Join(ps) == s[..k] + " " + Join(Pieces(t));
    }
  }

  /** For a non-empty single-spaced string the pieces are proper words that join back. */
  lemma PiecesOfSingleSpaced(s: string) returns (ps: seq<string>)
    requires s != [] && SingleSpaced(s)
    ensures ps == Pieces(s)
    ensures |ps| >= 1 && ProperWords(ps) && Join(ps) == s
  {
    ps := Pieces(s);
    PiecesProper(s);
    PiecesJoinBack(s);
  }

  // ---------------------------------------------------------------------
  // Integer.toString / String.valueOf(int) / Long.toString
  // ---------------------------------------------------------------------

  /** Decimal digits of a natural number, no leading zero. */
  function NatString(n: nat): (s: string)
    ensures s != []
    ensures forall k :: 0 <= k < |s| ==> '0' <= s[k] <= '9'
    ensures s[0] == '0' ==> n == 0
  {
    if n < 10 then [('0' as int + n) as char] else NatString(n / 10) + [('0' as int + n % 10) as char]
  }

  /** Integer.toString, Long.toString and String.valueOf(int). */
  function IntString(n: int): (s: string)
    ensures s != []
    ensures forall k :: 0 <= k < |s| ==> s[k] == '-' || '0' <= s[k] <= '9'
    ensures s[0] == '-' <==> n < 0
  {
    if n < 0 then "-" + NatString(-n) else NatString(n)
  }

  predicate AllDigits(s: string) {
    forall k :: 0 <= k < |s| ==> '0' <= s[k] <= '9'
  }

  /** The value of a string of decimal digits, most significant first. */
  function DigitsValue(s: string): nat
    requires AllDigits(s)
  {
    if s == [] then 0 else 10 * DigitsValue(s[..|s| - 1]) + (s[|s| - 1] as int - '0' as int)
  }

  /** Reading the decimal form of a natural number back gives the number. */
  lemma {:induction false} NatStringValue(n: nat)
    ensures AllDigits(NatString(n)) && DigitsValue(NatString(n)) == n
  {
    if n >= 10 {
      NatStringValue(n / 10);
      var s := NatString(n);
      assert s[..|s| - 1] == NatString(n / 10);
    }
  }

  /** Reading the decimal form of an integer back gives the integer: the digits after
      an optional minus sign are the absolute value. */
  lemma IntStringValue(n: int)
    ensures n >= 0 ==> AllDigits(IntString(n)) && DigitsValue(IntString(n)) == n
    ensures n < 0 ==> AllDigits(IntString(n)[1..]) && DigitsValue(IntString(n)[1..]) == -n
  {
    if n < 0 {
      NatStringValue(-n);
      assert IntString(n)[1..] == NatString(-n);
    } else {
      NatStringValue(n);
    }
  }

  /** Different integers have different decimal forms. */
  lemma IntStringInjective(a: int, b: int)
    requires IntString(a) == IntString(b)
    ensures a == b
  {
    IntStringValue(a);
    IntStringValue(b);
  }
}
