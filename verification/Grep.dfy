/**
 The regular-expression matcher of user/grep.c.

 A pattern denotes a sequence of items; a sequence of items denotes a language
 of strings.  The recursive matcher with its two scanning loops is proved to
 decide, for every pattern and every text, whether some substring of the text
 lies in that language.
 */
module Grep {

  /** A C string: the bytes before its terminating NUL. */
  type CString = s: string | '\0' !in s witness ""

  /** What the pointer expression s[i] reads: the terminator once the bytes run out. */
  function At(s: CString, i: nat): char {
    if i < |s| then s[i] else '\0'
  }

  /** A pattern element: one occurrence of a character class, or any number of them. */
  datatype Item = One(c: char) | Star(c: char)

  /** '.' stands for every character. */
  predicate Fits(c: char, x: char) {
    c == '.' || c == x
  }

  /** A final '$' is an anchor unless it is the operand of a star. */
  predicate DollarHere(re: CString) {
    re == "$"
  }

  function Items(re: CString): seq<Item> {
    if re == "" || DollarHere(re) then []
    else if At(re, 1) == '*' then [Star(re[0])] + Items(re[2..])
    else [One(re[0])] + Items(re[1..])
  }

  /** The pattern ends in an anchoring '$'. */
  predicate AnchoredAtEnd(re: CString) {
    if re == "" then false
    else if DollarHere(re) then true
    else if At(re, 1) == '*' then AnchoredAtEnd(re[2..])
    else AnchoredAtEnd(re[1..])
  }

  predicate SegmentFits(item: Item, seg: string) {
    match item
    case One(c) => |seg| == 1 && Fits(c, seg[0])
    case Star(c) => forall k :: 0 <= k < |seg| ==> Fits(c, seg[k])
  }

  function Flatten(segs: seq<string>): string {
    if segs == [] then "" else segs[0] + Flatten(segs[1..])
  }

  ghost predicate Splits(items: seq<Item>, segs: seq<string>, w: string) {
    && |segs| == |items|
    && Flatten(segs) == w
    && forall i :: 0 <= i < |items| ==> SegmentFits(items[i], segs[i])
  }

  /** The language of a pattern body: w cuts into one fitting segment per item. */
  ghost predicate InLanguage(items: seq<Item>, w: string) {
    exists segs: seq<string> :: Splits(items, segs, w)
  }

  /** text[i..j] is an occurrence of the pattern in the text. */
  ghost predicate Occurrence(re: CString, text: CString, i: nat, j: nat) {
    && i <= j <= |text|
    && InLanguage(Items(re), text[i..j])
    && (AnchoredAtEnd(re) ==> j == |text|)
  }

  /** Some prefix of the text is an occurrence. */
  ghost predicate HereMatches(re: CString, text: CString) {
    exists j: nat :: Occurrence(re, text, 0, j)
  }

  /** What grep promises: an occurrence anywhere, or at the start under '^'. */
  ghost predicate Matches(re: CString, text: CString) {
    if At(re, 0) == '^' then HereMatches(re[1..], text)
    else exists i: nat, j: nat :: Occurrence(re, text, i, j)
  }

  // ------------------------------------------------------------------
  // How the language of a pattern depends on its first item

  lemma {:induction false} EmptyLanguage(w: string)
    ensures InLanguage([], w) <==> w == ""
  {
    if w == "" {
      assert Splits([], [], w);
    }
  }

  lemma {:induction false} LanguageCons(item: Item, rest: seq<Item>, w: string, k: nat)
    requires k <= |w| && SegmentFits(item, w[..k]) && InLanguage(rest, w[k..])
    ensures InLanguage([item] + rest, w)
  {
    var segs: seq<string> :| Splits(rest, segs, w[k..]);
    assert ([w[..k]] + segs)[1..] == segs;
    assert Splits([item] + rest, [w[..k]] + segs, w);
  }

  lemma {:induction false} LanguageUncons(item: Item, rest: seq<Item>, w: string) returns (k: nat)
    requires InLanguage([item] + rest, w)
    ensures k <= |w| && SegmentFits(item, w[..k]) && InLanguage(rest, w[k..])
  {
    var segs: seq<string> :| Splits([item] + rest, segs, w);
    k := |segs[0]|;
    assert w[..k] == segs[0] && w[k..] == Flatten(segs[1..]);
    forall i | 0 <= i < |rest| ensures SegmentFits(rest[i], segs[1..][i]) {
      assert ([item] + rest)[i + 1] == rest[i];
    }
    assert Splits(rest, segs[1..], w[k..]);
  }

  /** A pattern whose first item is a star: an occurrence is a run of fitting characters, then the rest. */
  lemma {:induction false} StarStep(c: char, re: CString, text: CString, rest: CString)
    requires |re| >= 2 && re[0] == c && re[1] == '*' && rest == re[2..]
    ensures HereMatches(re, text) <==>
            exists k: nat :: k <= |text| && SegmentFits(Star(c), text[..k]) && HereMatches(rest, text[k..])
  {
    if HereMatches(re, text) {
      var j: nat :| Occurrence(re, text, 0, j);
      var k := LanguageUncons(Star(c), Items(rest), text[0..j]);
      assert text[0..j][..k] == text[..k] && text[0..j][k..] == text[k..][0..j - k];
      assert Occurrence(rest, text[k..], 0, j - k);
    }
    if k: nat :| k <= |text| && SegmentFits(Star(c), text[..k]) && HereMatches(rest, text[k..]) {
      var j: nat :| Occurrence(rest, text[k..], 0, j);
      var w := text[0..k + j];
      assert w[..k] == text[..k] && w[k..] == text[k..][0..j];
      LanguageCons(Star(c), Items(rest), w, k);
      assert Occurrence(re, text, 0, k + j);
    }
  }

  /** A pattern whose first item is a single character. */
  lemma {:induction false} OneStep(re: CString, text: CString)
    requires re != "" && !DollarHere(re) && At(re, 1) != '*'
    ensures HereMatches(re, text) <==>
            text != "" && Fits(re[0], text[0]) && HereMatches(re[1..], text[1..])
  {
    if HereMatches(re, text) {
      var j: nat :| Occurrence(re, text, 0, j);
      var k := LanguageUncons(One(re[0]), Items(re[1..]), text[0..j]);
      assert text[0..j][..k] == text[..1] && text[0..j][k..] == text[1..][0..j - 1];
      assert Occurrence(re[1..], text[1..], 0, j - 1);
    }
    if text != "" && Fits(re[0], text[0]) && HereMatches(re[1..], text[1..]) {
      var j: nat :| Occurrence(re[1..], text[1..], 0, j);
      var w := text[0..1 + j];
      assert w[..1] == [text[0]] && w[1..] == text[1..][0..j];
      LanguageCons(One(re[0]), Items(re[1..]), w, 1);
      assert Occurrence(re, text, 0, 1 + j);
    }
  }

  lemma {:induction false} EndStep(re: CString, text: CString)
    requires re == "" || DollarHere(re)
    ensures HereMatches(re, text) <==> (DollarHere(re) ==> text == "")
  {
    EmptyLanguage("");
    if HereMatches(re, text) {
      var j: nat :| Occurrence(re, text, 0, j);
      EmptyLanguage(text[0..j]);
    }
    if DollarHere(re) ==> text == "" {
      assert text[0..0] == "";
      assert Occurrence(re, text, 0, 0);
    }
  }

  /** Occurrences at or after position i are the occurrences in the rest of the text. */
  lemma {:induction false} OccurrenceShift(re: CString, text: CString, i: nat)
    requires i <= |text|
    ensures HereMatches(re, text[i..]) <==> exists j: nat :: Occurrence(re, text, i, j)
  {
    if HereMatches(re, text[i..]) {
      var j: nat :| Occurrence(re, text[i..], 0, j);
      assert text[i..][0..j] == text[i..i + j];
      assert Occurrence(re, text, i, i + j);
    }
    if j: nat :| Occurrence(re, text, i, j) {
      assert text[i..][0..j - i] == text[i..j];
      assert Occurrence(re, text[i..], 0, j - i);
    }
  }

  // ------------------------------------------------------------------
  // The matcher

  method MatchHere(re: CString, text: CString) returns (found: bool)
    ensures found <==> HereMatches(re, text)
    decreases |re|, 0
  {
    if At(re, 0) == '\0' {
      EndStep(re, text);
      return true;
    }
    if At(re, 1) == '*' {
      found := MatchStar(re[0], re[2..], text);
      StarStep(re[0], re, text, re[2..]);
      return;
    }
    if At(re, 0) == '$' && At(re, 1) == '\0' {
      EndStep(re, text);
      return At(text, 0) == '\0';
    }
    OneStep(re, text);
    if At(text, 0) != '\0' && (re[0] == '.' || re[0] == text[0]) {
      found := MatchHere(re[1..], text[1..]);
      return;
    }
    return false;
  }

  method MatchStar(c: char, re: CString, text: CString) returns (found: bool)
    ensures found <==>
            exists k: nat :: k <= |text| && SegmentFits(Star(c), text[..k]) && HereMatches(re, text[k..])
    decreases |re|, 1
  {
    var t := 0;
    while true
      invariant t <= |text| && SegmentFits(Star(c), text[..t])
      invariant forall k: nat :: k < t ==> !HereMatches(re, text[k..])
      decreases |text| - t
    {
      var here := MatchHere(re, text[t..]);
      if here {
        return true;
      }
      if At(text, t) == '\0' || !(text[t] == c || c == '.') {
        return false;
      }
      t := t + 1;
    }
  }

  method Match(re: CString, text: CString) returns (found: bool)
    ensures found <==> Matches(re, text)
  {
    if At(re, 0) == '^' {
      found := MatchHere(re[1..], text);
      return;
    }
    var t := 0;
    while true
      invariant t <= |text|
      invariant forall i: nat, j: nat :: i < t ==> !Occurrence(re, text, i, j)
      decreases |text| - t
    {
      var here := MatchHere(re, text[t..]);
      OccurrenceShift(re, text, t);
      if here {
        return true;
      }
      if At(text, t) == '\0' {
        return false;
      }
      t := t + 1;
    }
  }
}
