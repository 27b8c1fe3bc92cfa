/** Candidate-title generation (TmdbMatcher.generateCandidates and the helpers
    it calls): clean a filename-derived title, then offer an apostrophe variant
    ("Bobs Burgers" -> "Bob's Burgers") and a brand-stripped variant
    ("Amazon Just Add Magic" -> "Just Add Magic"). */
module Titles {
  import opened Text
  import opened Wrappers

  // ---------------------------------------------------------------------
  // cleanTitle: the replaceAll chain
  // ---------------------------------------------------------------------

  /** The fixed alternatives of the quality-tag pattern, in pattern order. */
  const QualityTokens: seq<string> := [
    "1080p", "720p", "480p", "2160p", "4k", "x264", "x265", "hevc", "aac", "mp3",
    "flac", "bluray", "brrip", "webrip", "web-dl", "hdtv", "dvdrip", "complete"
  ]

  /** `\b` just before position i, for a match whose first character is a word character. */
  predicate BoundaryBefore(s: string, i: nat)
    requires i <= |s|
  {
    i == 0 || !IsWordChar(s[i - 1])
  }

  /** `\b` just after position j, for a match whose last character is a word character. */
  predicate BoundaryAfter(s: string, j: nat)
    requires j <= |s|
  {
    j == |s| || !IsWordChar(s[j])
  }

  /** Length of the first fixed token of `toks` that matches at i (case-insensitively)
      and is followed by a word boundary. */
  function TokenMatchAt(s: string, i: nat, toks: seq<string>): (r: Option<nat>)
    requires i <= |s|
    requires forall t :: t in toks ==> |t| > 0
    ensures r.Some? ==> 0 < r.value <= |s| - i
  {
    if toks == [] then None
    else
      var t := toks[0];
      if i + |t| <= |s| && Lower(s[i..i + |t|]) == t && BoundaryAfter(s, i + |t|) then Some(|t|)
      else TokenMatchAt(s, i, toks[1..])
  }

  /** Number of leading characters of s satisfying the class. */
  function LeadingWs(s: string): (n: nat)
    ensures n <= |s|
  {
    if s != [] && IsWs(s[0]) then 1 + LeadingWs(s[1..]) else 0
  }

  function LeadingDigits(s: string): (n: nat)
    ensures n <= |s|
    ensures forall k :: 0 <= k < n ==> IsDigit(s[k])
    ensures n < |s| ==> !IsDigit(s[n])
  {
    if s != [] && IsDigit(s[0]) then 1 + LeadingDigits(s[1..]) else 0
  }

  /** The `season\s*\d+\b` alternative. The digit run is taken whole: giving back
      digits can never produce a boundary, so the greedy match is the only one. */
  function SeasonMatchAt(s: string, i: nat): (r: Option<nat>)
    requires i <= |s|
    ensures r.Some? ==> 7 <= r.value <= |s| - i
  {
    if i + 6 <= |s| && Lower(s[i..i + 6]) == "season" then
      var j := i + 6 + LeadingWs(s[i + 6..]);
      var k := j + LeadingDigits(s[j..]);
      if k > j && BoundaryAfter(s, k) then Some(k - i) else None
    else None
  }

  /** Length of the quality-tag match starting at i, if the pattern matches there. */
  function QualityMatchAt(s: string, i: nat): (r: Option<nat>)
    requires i <= |s|
    ensures r.Some? ==> 0 < r.value <= |s| - i
  {
    if !BoundaryBefore(s, i) then None
    else
      match TokenMatchAt(s, i, QualityTokens)
      case Some(n) => Some(n)
      case None => SeasonMatchAt(s, i)
  }

  /** `replaceAll("(?i)\\b(1080p|...|season\\s*\\d+)\\b", "")`, scanning from i. */
  function StripQuality(s: string, i: nat): string
    requires i <= |s|
    decreases |s| - i
  {
    if i == |s| then ""
    else
      match QualityMatchAt(s, i)
      case Some(n) => StripQuality(s, i + n)
      case None => [s[i]] + StripQuality(s, i + 1)
  }

  /** The line terminators that `.` does not match. */
  predicate IsLineTerminator(c: char) {
    c == '\n' || c == '\r' || c as int == 0x85 || c as int == 0x2028 || c as int == 0x2029
  }

  /** Index of the first `close` at or after j, unless a line terminator comes first. */
  function FindClose(s: string, j: nat, close: char): (r: Option<nat>)
    requires j <= |s|
    ensures r.Some? ==> j <= r.value < |s| && s[r.value] == close
    decreases |s| - j
  {
    if j == |s| then None
    else if s[j] == close then Some(j)
    else if IsLineTerminator(s[j]) then None
    else FindClose(s, j + 1, close)
  }

  /** `replaceAll("\\[.*?\\]", "")` (and the parenthesis version), scanning from i. */
  function RemoveSegments(s: string, i: nat, open: char, close: char): string
    requires i <= |s|
    decreases |s| - i
  {
    if i == |s| then ""
    else if s[i] == open && FindClose(s, i + 1, close).Some? then
      RemoveSegments(s, FindClose(s, i + 1, close).value + 1, open, close)
    else [s[i]] + RemoveSegments(s, i + 1, open, close)
  }

  /** `replaceAll("\\s+", " ")`. */
  function CollapseWs(s: string): (r: string)
    ensures WsAreSpaces(r) && NoWsRun(r)
    ensures s != [] && !IsWs(s[0]) ==> r != [] && r[0] == s[0]
    decreases |s|
  {
    if s == [] then ""
    else if IsWs(s[0]) then
      var rest := DropWs(s);
      " " + CollapseWs(rest)
    else
      [s[0]] + CollapseWs(s[1..])
  }

  /** `trim()` at the front: the index of the first character above U+0020 at or after i. */
  function TrimFrom(s: string, i: nat): (k: nat)
    requires i <= |s|
    ensures i <= k <= |s| && (k < |s| ==> s[k] > ' ')
    ensures forall j :: i <= j < k ==> s[j] <= ' '
    decreases |s| - i
  {
    if i < |s| && s[i] <= ' ' then TrimFrom(s, i + 1) else i
  }

  /** `trim()` at the back: the end of the slice once trailing characters up to U+0020
      in s[lo..hi] are dropped. */
  function TrimTo(s: string, lo: nat, hi: nat): (k: nat)
    requires lo <= hi <= |s|
    ensures lo <= k <= hi && (lo < k ==> s[k - 1] > ' ')
    ensures forall j :: k <= j < hi ==> s[j] <= ' '
    decreases hi
  {
    if lo < hi && s[hi - 1] <= ' ' then TrimTo(s, lo, hi - 1) else hi
  }

  /** `trim()`: the slice between the first and the last character above U+0020. */
  function Trim(s: string): string {
    var lo := TrimFrom(s, 0);
    s[lo..TrimTo(s, lo, |s|)]
  }

  /** A slice of a string with no whitespace runs and only plain spaces keeps both properties. */
  lemma SliceKeepsSpacing(s: string, lo: nat, hi: nat)
    requires lo <= hi <= |s| && WsAreSpaces(s) && NoWsRun(s)
    ensures WsAreSpaces(s[lo..hi]) && NoWsRun(s[lo..hi])
  {
    var t := s[lo..hi];
    forall i | 0 <= i < |t| ensures IsWs(t[i]) ==> t[i] == ' ' {
      assert t[i] == s[lo + i];
    }
    forall i | 0 <= i < |t| - 1 ensures IsWs(t[i]) ==> !IsWs(t[i + 1]) {
      assert t[i] == s[lo + i] && t[i + 1] == s[lo + i + 1];
    }
  }

  /** A slice with a visible character at each end of a string whose whitespace is
      lone plain spaces is single-spaced. */
  lemma VisibleEndsSlice(s: string, lo: nat, hi: nat)
    requires lo <= hi <= |s| && WsAreSpaces(s) && NoWsRun(s)
    requires lo < hi ==> s[lo] > ' ' && s[hi - 1] > ' '
    ensures var t := s[lo..hi]; SingleSpaced(t) && (t == [] || (t[0] > ' ' && t[|t| - 1] > ' '))
  {
    SliceKeepsSpacing(s, lo, hi);
  }

  /** Trimming a string whose whitespace is lone plain spaces leaves it single-spaced,
      with a visible character at each end. */
  lemma TrimKeepsSpacing(s: string)
    requires WsAreSpaces(s) && NoWsRun(s)
    ensures var r := Trim(s); SingleSpaced(r) && (r == [] || (r[0] > ' ' && r[|r| - 1] > ' '))
  {
    var lo := TrimFrom(s, 0);
    VisibleEndsSlice(s, lo, TrimTo(s, lo, |s|));
  }

  /** cleanTitle: "" for an empty title; otherwise the quality tags, bracketed and
      parenthesised segments removed, whitespace collapsed and the ends trimmed.
      The result is single-spaced and starts and ends with a visible character. */
  function CleanTitle(title: string): (r: string)
    ensures title == [] ==> r == []
    ensures SingleSpaced(r)
    ensures r == [] || (r[0] > ' ' && r[|r| - 1] > ' ')
  {
    if title == [] then ""
    else
      var noTags := StripQuality(title, 0);
      var noBrackets := RemoveSegments(noTags, 0, '[', ']');
      var noParens := RemoveSegments(noBrackets, 0, '(', ')');
      var collapsed := CollapseWs(noParens);
      TrimKeepsSpacing(collapsed);
      Trim(collapsed)
  }

  // ---------------------------------------------------------------------
  // tryApostropheFix
  // ---------------------------------------------------------------------

  /** Word i qualifies for the apostrophe fix: at least three characters, ends in
      's' but not in "'s", and the next word starts with an upper-case letter. */
  predicate Fixable(words: seq<string>, i: nat)
    requires i + 1 < |words|
  {
    var w := words[i];
    |w| >= 3 && w[|w| - 1] == 's' && w[|w| - 2] != '\''
    && words[i + 1] != [] && IsUpper(words[i + 1][0])
  }

  /** "Bobs" -> "Bob's". */
  function AddApostrophe(w: string): string
    requires |w| >= 1
  {
    w[..|w| - 1] + "'s"
  }

  /** The spec of tryApostropheFix: the split words with the first qualifying
      word fixed, joined by single spaces; None if no word qualifies. */
  function ApostropheVariant(title: string): Option<string>
  {
    var ws := Split(title);
    if |ws| < 2 then None
    else
      match FirstFixable(ws, 0)
      case None => None
      case Some(k) => Some(Join(ws[k := AddApostrophe(ws[k])]))
  }

  function FirstFixable(ws: seq<string>, from: nat): (r: Option<nat>)
    ensures r.Some? ==> from <= r.value && r.value + 1 < |ws| && Fixable(ws, r.value)
    ensures r.Some? ==> forall i :: from <= i < r.value ==> !Fixable(ws, i)
    ensures r.None? ==> forall i :: from <= i && i + 1 < |ws| ==> !Fixable(ws, i)
    decreases |ws| - from
  {
    if from + 1 >= |ws| then None
    else if Fixable(ws, from) then Some(from)
    else FirstFixable(ws, from + 1)
  }

  /** For a word ending in 's', ending in "'s" is a test on the character before. */
  lemma EndsWithApostropheS(w: string)
    requires |w| >= 2 && w[|w| - 1] == 's'
    ensures (w[|w| - 2..] == "'s") <==> w[|w| - 2] == '\''
  {
    if w[|w| - 2] == '\'' {
      assert w[|w| - 2..] == [w[|w| - 2], w[|w| - 1]];
    }
  }

  /** The loop's test on word i, read as Fixable. */
  lemma QualifiesIffFixable(ws: seq<string>, i: nat)
    requires i + 1 < |ws| && ws[i + 1] != []
    ensures var w := ws[i];
      Fixable(ws, i) <==>
        (|w| >= 3 && w[|w| - 1] == 's' && w[|w| - 2..] != "'s" && IsUpper(ws[i + 1][0]))
  {
    var w := ws[i];
    if |w| >= 3 && w[|w| - 1] == 's' {
      EndsWithApostropheS(w);
    }
  }

  /** Skipping a word that does not qualify leaves the first qualifying word unchanged. */
  lemma FirstFixableSkip(ws: seq<string>, i: nat)
    requires i + 1 < |ws| && !Fixable(ws, i)
    ensures FirstFixable(ws, i) == FirstFixable(ws, i + 1)
  {
  }

  /** The loop of tryApostropheFix stops at the first qualifying word. */
  lemma FixFoundAt(title: string, ws: seq<string>, i: nat)
    requires ws == Split(title) && i + 1 < |ws|
    requires FirstFixable(ws, 0) == FirstFixable(ws, i) && Fixable(ws, i)
    ensures ApostropheVariant(title) == Some(Join(ws[i := AddApostrophe(ws[i])]))
  {
  }

  /** tryApostropheFix: splits the title into an array of words and walks it; the
      first qualifying word gets its apostrophe and the words are joined again. */
  method ApostropheFix(title: string) returns (r: Option<string>)
    ensures r == ApostropheVariant(title)
  {
    var ws := Split(title);
    if |ws| >= 2 {
      var words := new string[|ws|](j requires 0 <= j < |ws| => ws[j]);
      var i := 0;
      while i < words.Length - 1
        invariant 0 <= i <= words.Length - 1
        invariant words[..] == ws
        invariant FirstFixable(ws, 0) == FirstFixable(ws, i)
      {
        var word := words[i];
        QualifiesIffFixable(ws, i);
        if |word| >= 3 && word[|word| - 1] == 's' && word[|word| - 2..] != "'s" {
          // The source also tests `i + 1 < words.length`, which the loop bound implies;
          // Split never yields an empty word after the first, so charAt(0) is defined.
          if IsUpper(words[i + 1][0]) {
            FixFoundAt(title, ws, i);
            words[i] := word[..|word| - 1] + "'s";
            assert words[..] == ws[i := AddApostrophe(ws[i])];
            return Some(Join(words[..]));
          }
        }
        FirstFixableSkip(ws, i);
        i := i + 1;
      }
    }
    return None;
  }

  /** What tryApostropheFix promises: no variant when there are fewer than two words
      or no word qualifies; otherwise the first qualifying word, and only it, is fixed. */
  lemma ApostropheVariantSpec(title: string)
    ensures var ws := Split(title);
      ApostropheVariant(title).None?
      <==> (|ws| < 2 || forall i :: 0 <= i && i + 1 < |ws| ==> !Fixable(ws, i))
    ensures var ws := Split(title);
      ApostropheVariant(title).Some? ==>
        exists k :: (0 <= k && k + 1 < |ws| && Fixable(ws, k)
          && (forall i :: 0 <= i < k ==> !Fixable(ws, i))
          && ApostropheVariant(title).value == Join(ws[k := AddApostrophe(ws[k])]))
  {
    var ws := Split(title);
    if |ws| >= 2 {
      match FirstFixable(ws, 0)
      case None =>
      case Some(k) =>
        assert 0 <= k && k + 1 < |ws| && Fixable(ws, k);
    }
  }

  /** The fixed word is still a proper word, and a different one. */
  lemma AddApostropheWord(w: string)
    requires |w| >= 3 && w[|w| - 2] != '\'' && NoWs(w)
    ensures AddApostrophe(w) != [] && NoWs(AddApostrophe(w)) && AddApostrophe(w) != w
  {
    var fixed := AddApostrophe(w);
    forall j | 0 <= j < |fixed| ensures !IsWs(fixed[j]) {
      if j < |w| - 1 { assert fixed[j] == w[j]; }
    }
    assert fixed[|fixed| - 2] == '\'';
  }

  /** Fixing one word of a list of proper words gives proper words whose joined
      text splits back into them and differs from the original joined text. */
  lemma FixedWords(ws: seq<string>, k: nat)
    requires ProperWords(ws) && k + 1 < |ws| && Fixable(ws, k)
    ensures var vws := ws[k := AddApostrophe(ws[k])];
      && ProperWords(vws) && Split(Join(vws)) == vws
      && SingleSpaced(Join(vws)) && Join(vws) != Join(ws)
  {
    AddApostropheWord(ws[k]);
    var vws := ws[k := AddApostrophe(ws[k])];
    assert ProperWords(vws);
    SplitJoin(vws);
    SplitJoin(ws);
    JoinOfProperWords(vws);
    assert vws[k] != ws[k];
  }

  /** On a single-spaced title the apostrophe variant keeps the word count and every
      word except the fixed one, and is itself single-spaced. */
  lemma ApostropheVariantWords(title: string)
    requires SingleSpaced(title)
    ensures match ApostropheVariant(title)
      case None => true
      case Some(v) =>
        var ws, vs := Split(title), Split(v);
        && SingleSpaced(v) && |vs| == |ws| && v != title
        && exists k :: (0 <= k && k + 1 < |ws| && Fixable(ws, k)
             && vs[k] == AddApostrophe(ws[k])
             && (forall i :: 0 <= i < |ws| && i != k ==> vs[i] == ws[i]))
  {
    var ws := Split(title);
    if |ws| >= 2 && FirstFixable(ws, 0).Some? {
      var k := FirstFixable(ws, 0).value;
      JoinSplit(title);
      FixedWords(ws, k);
      var vws := ws[k := AddApostrophe(ws[k])];
      assert ApostropheVariant(title) == Some(Join(vws));
      assert Split(Join(vws))[k] == AddApostrophe(ws[k]);
    }
  }

  // ---------------------------------------------------------------------
  // tryStripBrandPrefix
  // ---------------------------------------------------------------------

  const BrandPrefixes: set<string> := {"amazon", "netflix", "hulu", "disney", "hbo", "apple"}

  /** tryStripBrandPrefix: the words after the first, when there are at least two
      words and the lower-cased first word is a known brand. */
  function StripBrandPrefix(title: string): (r: Option<string>)
    ensures r.Some? <==> |Split(title)| >= 2 && Lower(Split(title)[0]) in BrandPrefixes
    ensures r.Some? ==> r.value != [] && SingleSpaced(r.value)
    ensures r.Some? ==> Split(r.value) == Split(title)[1..]
  {
    var ws := Split(title);
    if |ws| >= 2 && Lower(ws[0]) in BrandPrefixes then
      assert ProperWords(ws[1..]);
      JoinOfProperWords(ws[1..]);
      SplitJoin(ws[1..]);
      Some(Join(ws[1..]))
    else None
  }

  /** On a single-spaced title, stripping a brand drops exactly the first word and
      the space after it; it happens exactly when the first of two or more words is a brand. */
  lemma StripBrandPrefixDropsFirstWord(title: string)
    requires SingleSpaced(title)
    ensures var ws := Split(title);
      match StripBrandPrefix(title)
      case Some(v) =>
        && |ws| >= 2 && Lower(ws[0]) in BrandPrefixes
        && title == ws[0] + " " + v && v != [] && SingleSpaced(v)
      case None => |ws| < 2 || Lower(ws[0]) !in BrandPrefixes
  {
    var ws := Split(title);
    if |ws| >= 2 && Lower(ws[0]) in BrandPrefixes {
      JoinSplit(title);
      assert title == ws[0] + " " + Join(ws[1..]);
      JoinOfProperWords(ws[1..]);
    }
  }

  // ---------------------------------------------------------------------
  // generateCandidates
  // ---------------------------------------------------------------------

  /** A variant joins the list only when it exists and differs from the base. */
  function Extra(v: Option<string>, base: string): seq<string> {
    if v.Some? && v.value != base then [v.value] else []
  }

  /** A base followed by its extras: one to three entries, none of the extras equal
      to the base. */
  lemma ExtrasDifferFromBase(base: string, a: Option<string>, b: Option<string>)
    ensures var c := [base] + Extra(a, base) + Extra(b, base);
      1 <= |c| <= 3 && c[0] == base && forall i :: 1 <= i < |c| ==> c[i] != base
  {
  }

  /** One step of generateCandidates: a variant is appended when it exists and
      differs from the cleaned title. */
  method AddIfDifferent(candidates: seq<string>, v: Option<string>, base: string)
    returns (r: seq<string>)
    ensures r == candidates + Extra(v, base)
  {
    r := candidates;
    if v.Some? && v.value != base {
      r := r + [v.value];
    }
  }

  /** generateCandidates: the cleaned title, then the apostrophe variant, then the
      brand-stripped variant, each variant computed from the cleaned title and kept
      only when it differs from it. */
  method GenerateCandidates(title: string) returns (candidates: seq<string>)
    ensures 1 <= |candidates| <= 3
    ensures candidates[0] == CleanTitle(title)
    ensures forall i :: 1 <= i < |candidates| ==> candidates[i] != candidates[0]
    ensures var c := CleanTitle(title);
      candidates == [c] + Extra(ApostropheVariant(c), c) + Extra(StripBrandPrefix(c), c)
  {
    var cleaned := CleanTitle(title);
    candidates := [cleaned];
    var apostropheVariant := ApostropheFix(cleaned);
    candidates := AddIfDifferent(candidates, apostropheVariant, cleaned);
    var prefixStripped := StripBrandPrefix(cleaned);
    candidates := AddIfDifferent(candidates, prefixStripped, cleaned);
    ExtrasDifferFromBase(cleaned, apostropheVariant, prefixStripped);
  }
}
