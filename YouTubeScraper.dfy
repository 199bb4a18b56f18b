/** The YouTube comment scraper: `processCommentText` and `isValidComment`,
    the filters `collectData` applies to every thread, the rows it writes,
    `convertYouTubeTimeToDate`, `getVideoId` and the counters of
    `loadAllComments`. What the page shows is given: each thread as its top
    comment (if the thread has one) and its replies, each comment as the
    author `getAuthorName` found, the text `getCommentText` found and the
    timestamp text `getTimestamp` found; and, for each round of
    `loadAllComments`, the number of threads before and after it and the
    number of "show more" buttons it clicked. Characters are Unicode code
    points, where the script's regular expressions see UTF-16 code units.
    The clock is a parameter: it gives the calendar day of the present
    moment moved back by a whole number of units. */
module YouTubeScraper {
  import Text
  import Csv
  import Dates
  import Patience
  import opened Wrappers

  // ---------------------------------------------------------------------
  // Character classes of the regular expressions

  /** ECMAScript LineTerminator: what `.` does not match. */
  predicate IsLineTerminator(c: char) {
    c == '\n' || c == '\r' || c == '\U{2028}' || c == '\U{2029}'
  }

  /** What the emoji patterns name: a surrogate pair whose first half is at
      least U+D83C, that is a code point from U+1F000 on, or a character of
      U+2600-U+27FF. */
  predicate IsEmoji(c: char) {
    c >= '\U{1F000}' || ('\U{2600}' <= c <= '\U{27FF}')
  }

  /** `[:=xX]`, the eyes of an emoticon. */
  predicate IsEyes(c: char) {
    c == ':' || c == '=' || c == 'x' || c == 'X'
  }

  /** `[\-\^]`, its nose. */
  predicate IsNose(c: char) {
    c == '-' || c == '^'
  }

  /** `[\)\(\[\]DdPpOo3<>\/\\|}{@*]`, its mouth. */
  predicate IsMouth(c: char) {
    c == ')' || c == '(' || c == '[' || c == ']' || c == 'D' || c == 'd' || c == 'P' || c == 'p'
    || c == 'O' || c == 'o' || c == '3' || c == '<' || c == '>' || c == '/' || c == '\\' || c == '|'
    || c == '}' || c == '{' || c == '@' || c == '*'
  }

  /** `\w`. */
  predicate IsWordChar(c: char) {
    ('a' <= c <= 'z') || ('A' <= c <= 'Z') || ('0' <= c <= '9') || c == '_'
  }

  /** The letters the scripts name: `[a-zA-ZÀ-ɏḀ-ỿ]`
      (the range U+0100-U+017F they also list lies inside the first
      range). */
  predicate IsLetter(c: char) {
    ('a' <= c <= 'z') || ('A' <= c <= 'Z') || ('\U{00C0}' <= c <= '\U{024F}') || ('\U{1E00}' <= c <= '\U{1EFF}')
  }

  /** What the clean-up keeps: `[\w\sÀ-ɏḀ-ỿĀ-ſ.,!?;:()\-\/'"]`. */
  predicate IsAllowed(c: char) {
    IsWordChar(c) || Text.IsJsSpace(c) || IsLetter(c)
    || c == '.' || c == ',' || c == '!' || c == '?' || c == ';' || c == ':' || c == '(' || c == ')'
    || c == '-' || c == '/' || c == '\'' || c == '"'
  }

  // ---------------------------------------------------------------------
  // processCommentText

  /** The emoji removal: every emoji character dropped. */
  function StripEmoji(s: string): string {
    Text.Keep(s, IsEmoji)
  }

  /** `replace(/[:=xX][\-\^]?[mouth]+/g, '')`: scanning left to right, an
      eye, an optional nose and the longest run of mouths after it are
      deleted; the scan goes on after the deleted text. */
  function StripEyesFirst(s: string): (r: string)
    ensures |r| <= |s|
    decreases |s|
  {
    if s == [] then []
    else if IsEyes(s[0]) && |s| > 2 && IsNose(s[1]) && IsMouth(s[2]) then
      StripEyesFirst(s[2 + Text.LeadCount(s[2..], IsMouth)..])
    else if IsEyes(s[0]) && |s| > 1 && IsMouth(s[1]) then
      StripEyesFirst(s[1 + Text.LeadCount(s[1..], IsMouth)..])
    else [s[0]] + StripEyesFirst(s[1..])
  }

  /** `replace(/[mouth]+[:=xX][\-\^]?/g, '')`: a run of mouths followed by
      an eye and an optional nose is deleted. A shorter run cannot be
      followed by an eye, so only the whole run is tried. */
  function StripMouthFirst(s: string): (r: string)
    ensures |r| <= |s|
    decreases |s|
  {
    if s == [] then []
    else
      var n := Text.LeadCount(s, IsMouth);
      if 0 < n < |s| && IsEyes(s[n]) then
        StripMouthFirst(s[if n + 1 < |s| && IsNose(s[n + 1]) then n + 2 else n + 1..])
      else [s[0]] + StripMouthFirst(s[1..])
  }

  /** The length of the run of `c` that starts `s`. */
  function RunOf(s: string, c: char): (n: nat)
    ensures n <= |s| && (forall k :: 0 <= k < n ==> s[k] == c) && (n < |s| ==> s[n] != c)
  {
    if s == [] || s[0] != c then 0 else 1 + RunOf(s[1..], c)
  }

  /** `replace(/(.)\1{2,}/g, '$1$1')`: a run of three or more equal
      characters, line terminators excepted, becomes two of them. */
  function CollapseRuns(s: string): (r: string)
    ensures |r| <= |s|
    ensures s != [] ==> r != [] && r[0] == s[0]
    ensures |s| >= 2 ==> |r| >= 2 && r[1] == s[1]
    decreases |s|
  {
    if s == [] then []
    else
      var n := RunOf(s, s[0]);
      if n >= 3 && !IsLineTerminator(s[0]) then [s[0], s[0]] + CollapseRuns(s[n..])
      else [s[0]] + CollapseRuns(s[1..])
  }

  /** `replace(/[^allowed]/g, ' ')`. */
  function ReplaceDisallowed(s: string): string {
    seq(|s|, k requires 0 <= k < |s| => if IsAllowed(s[k]) then s[k] else ' ')
  }

  /** `replace(/\s+/g, ' ')`. */
  function SqueezeSpaces(s: string): (r: string)
    ensures s != [] ==> r != [] && (Text.IsJsSpace(r[0]) <==> Text.IsJsSpace(s[0]))
    decreases |s|
  {
    if s == [] then []
    else if Text.IsJsSpace(s[0]) then " " + SqueezeSpaces(s[Text.LeadCount(s, Text.IsJsSpace)..])
    else [s[0]] + SqueezeSpaces(s[1..])
  }

  /** `processCommentText`; None stands for `null`. */
  function ProcessCommentText(text: string): (r: Option<string>)
    ensures r.None? <==> text == ""
  {
    if text == "" then None
    else
      var t := StripMouthFirst(StripEyesFirst(StripEmoji(text)));
      Some(Text.JsTrim(SqueezeSpaces(ReplaceDisallowed(CollapseRuns(t)))))
  }

  /** No three equal characters in a row, line terminators excepted. */
  predicate NoTriple(s: string) {
    forall i :: 0 <= i && i + 2 < |s| ==> !(s[i] == s[i + 1] && s[i + 1] == s[i + 2] && !IsLineTerminator(s[i]))
  }

  /** After the collapse no run of three is left. */
  lemma {:induction false} CollapseNoTriple(s: string)
    ensures NoTriple(CollapseRuns(s))
    decreases |s|
  {
    if s != [] {
      var c := s[0];
      var n := RunOf(s, c);
      var r := CollapseRuns(s);
      if n >= 3 && !IsLineTerminator(c) {
        var rest := CollapseRuns(s[n..]);
        CollapseNoTriple(s[n..]);
        assert r == [c, c] + rest;
        assert rest != [] ==> rest[0] == s[n] && s[n] != c;
        forall i | 0 <= i && i + 2 < |r|
          ensures !(r[i] == r[i + 1] && r[i + 1] == r[i + 2] && !IsLineTerminator(r[i]))
        {
          if i >= 2 {
            assert r[i] == rest[i - 2] && r[i + 1] == rest[i - 1] && r[i + 2] == rest[i];
          }
        }
      } else {
        var rest := CollapseRuns(s[1..]);
        CollapseNoTriple(s[1..]);
        assert r == [c] + rest;
        forall i | 0 <= i && i + 2 < |r|
          ensures !(r[i] == r[i + 1] && r[i + 1] == r[i + 2] && !IsLineTerminator(r[i]))
        {
          if i >= 1 {
            assert r[i] == rest[i - 1] && r[i + 1] == rest[i] && r[i + 2] == rest[i + 1];
          } else {
            assert r[1] == s[1] && r[2] == rest[1] && rest[1] == s[1..][1] == s[2];
          }
        }
      }
    }
  }

  /** A text without a run of three is left alone, so collapsing twice is
      collapsing once. */
  lemma {:induction false} CollapseFixed(s: string)
    requires NoTriple(s)
    ensures CollapseRuns(s) == s
    decreases |s|
  {
    if s != [] {
      var n := RunOf(s, s[0]);
      if n >= 3 {
        assert s[0] == s[1] && s[1] == s[2];
      }
      assert NoTriple(s[1..]) by {
        forall i | 0 <= i && i + 2 < |s[1..]|
          ensures !(s[1..][i] == s[1..][i + 1] && s[1..][i + 1] == s[1..][i + 2] && !IsLineTerminator(s[1..][i]))
        {
          assert s[1..][i] == s[i + 1] && s[1..][i + 1] == s[i + 2] && s[1..][i + 2] == s[i + 3];
        }
      }
      CollapseFixed(s[1..]);
    }
  }

  lemma CollapseIdempotent(s: string)
    ensures CollapseRuns(CollapseRuns(s)) == CollapseRuns(s)
  {
    CollapseNoTriple(s);
    CollapseFixed(CollapseRuns(s));
  }

  // ---------------------------------------------------------------------
  // What processing leaves

  /** Whitespace is single spaces only. */
  predicate SingleSpaced(s: string) {
    (forall k :: 0 <= k < |s| && Text.IsJsSpace(s[k]) ==> s[k] == ' ')
    && (forall k :: 0 <= k && k + 1 < |s| ==> !(Text.IsJsSpace(s[k]) && Text.IsJsSpace(s[k + 1])))
  }

  /** Squeezing leaves single spaces, and adds no character but a space. */
  lemma {:induction false} SqueezeForm(s: string)
    ensures SingleSpaced(SqueezeSpaces(s))
    ensures Text.AllBy(s, IsAllowed) ==> Text.AllBy(SqueezeSpaces(s), IsAllowed)
    decreases |s|
  {
    if s != [] {
      var r := SqueezeSpaces(s);
      if Text.IsJsSpace(s[0]) {
        var a := Text.LeadCount(s, Text.IsJsSpace);
        var rest := SqueezeSpaces(s[a..]);
        SqueezeForm(s[a..]);
        assert r == " " + rest;
        assert rest != [] ==> !Text.IsJsSpace(rest[0]);
        assert Text.AllBy(s, IsAllowed) ==> Text.AllBy(s[a..], IsAllowed);
        assert forall k :: 1 <= k < |r| ==> r[k] == rest[k - 1];
      } else {
        var rest := SqueezeSpaces(s[1..]);
        SqueezeForm(s[1..]);
        assert r == [s[0]] + rest;
        assert Text.AllBy(s, IsAllowed) ==> Text.AllBy(s[1..], IsAllowed);
        assert forall k :: 1 <= k < |r| ==> r[k] == rest[k - 1];
      }
    }
  }

  /** Trimming keeps both properties and takes the spaces off the ends. */
  lemma TrimForm(v: string)
    requires Text.AllBy(v, IsAllowed) && SingleSpaced(v)
    ensures var p := Text.JsTrim(v);
      Text.AllBy(p, IsAllowed) && SingleSpaced(p) && (p != [] ==> p[0] != ' ' && p[|p| - 1] != ' ')
  {
    var p := Text.JsTrim(v);
    var a := Text.LeadCount(v, Text.IsJsSpace);
    assert Text.StrippedAt(v, p, Text.IsJsSpace, a);
    assert forall k :: 0 <= k < |p| ==> p[k] == v[a + k];
  }

  /** A processed text holds only characters the clean-up keeps (so no
      emoji), its whitespace is single spaces, and it neither starts nor ends
      with one. */
  lemma ProcessedForm(text: string)
    requires ProcessCommentText(text).Some?
    ensures var p := ProcessCommentText(text).value;
      Text.AllBy(p, IsAllowed) && SingleSpaced(p) && (p != [] ==> p[0] != ' ' && p[|p| - 1] != ' ')
      && forall k :: 0 <= k < |p| ==> !IsEmoji(p[k])
  {
    var t := StripMouthFirst(StripEyesFirst(StripEmoji(text)));
    var u := ReplaceDisallowed(CollapseRuns(t));
    var v := SqueezeSpaces(u);
    SqueezeForm(u);
    TrimForm(v);
    assert ProcessCommentText(text).value == Text.JsTrim(v);
    AllowedNoEmoji(Text.JsTrim(v));
  }

  /** No character the clean-up keeps is an emoji. */
  lemma AllowedNoEmoji(p: string)
    requires Text.AllBy(p, IsAllowed)
    ensures forall k :: 0 <= k < |p| ==> !IsEmoji(p[k])
  {
    forall k | 0 <= k < |p|
      ensures !IsEmoji(p[k])
    {
      assert IsAllowed(p[k]);
    }
  }

  /** `emojiOnlyRegex`: nothing but emoji and whitespace. */
  predicate EmojiOnly(text: string) {
    forall k :: 0 <= k < |text| ==> IsEmoji(text[k]) || Text.IsJsSpace(text[k])
  }

  lemma {:induction false} StripEmojiSpaces(s: string)
    requires EmojiOnly(s)
    ensures Text.AllBy(StripEmoji(s), Text.IsJsSpace)
    decreases |s|
  {
    if s != [] {
      StripEmojiSpaces(s[1..]);
      assert StripEmoji(s) == (if IsEmoji(s[0]) then [] else [s[0]]) + StripEmoji(s[1..]);
    }
  }

  /** Whitespace holds no emoticon. */
  lemma SpaceNoFace(c: char)
    requires Text.IsJsSpace(c)
    ensures !IsEyes(c) && !IsMouth(c)
  {
  }

  lemma {:induction false} SpacesNoEyes(s: string)
    requires Text.AllBy(s, Text.IsJsSpace)
    ensures StripEyesFirst(s) == s
    decreases |s|
  {
    if s != [] {
      var rest := s[1..];
      assert Text.AllBy(rest, Text.IsJsSpace) by {
        assert forall k :: 0 <= k < |rest| ==> rest[k] == s[k + 1];
      }
      SpacesNoEyes(rest);
      SpaceNoFace(s[0]);
      assert StripEyesFirst(s) == [s[0]] + StripEyesFirst(rest);
      assert s == [s[0]] + rest;
    }
  }

  lemma {:induction false} SpacesNoMouth(s: string)
    requires Text.AllBy(s, Text.IsJsSpace)
    ensures StripMouthFirst(s) == s
    decreases |s|
  {
    if s != [] {
      var rest := s[1..];
      assert Text.AllBy(rest, Text.IsJsSpace) by {
        assert forall k :: 0 <= k < |rest| ==> rest[k] == s[k + 1];
      }
      SpacesNoMouth(rest);
      SpaceNoFace(s[0]);
      assert Text.LeadCount(s, IsMouth) == 0;
      assert StripMouthFirst(s) == [s[0]] + StripMouthFirst(rest);
      assert s == [s[0]] + rest;
    }
  }

  /** Collapsing whitespace leaves whitespace. */
  lemma {:induction false} SpacesCollapse(s: string)
    requires Text.AllBy(s, Text.IsJsSpace)
    ensures Text.AllBy(CollapseRuns(s), Text.IsJsSpace)
    decreases |s|
  {
    if s != [] {
      var n := RunOf(s, s[0]);
      SpacesCollapse(s[1..]);
      SpacesCollapse(s[n..]);
    }
  }

  /** The emoji-only test rejects nothing the test of the processed text has
      not rejected already: such a comment processes to the empty text. */
  lemma EmojiOnlyProcessesEmpty(text: string)
    requires text != "" && EmojiOnly(text)
    ensures ProcessCommentText(text) == Some("")
  {
    var e := StripEmoji(text);
    StripEmojiSpaces(text);
    SpacesNoEyes(e);
    SpacesNoMouth(e);
    SpacesCollapse(e);
    var c := CollapseRuns(e);
    var u := ReplaceDisallowed(c);
    assert u == c;
    if u != [] {
      assert Text.LeadCount(u, Text.IsJsSpace) == |u|;
      assert u[|u|..] == [];
      assert SqueezeSpaces(u) == " ";
    }
  }

  // ---------------------------------------------------------------------
  // isValidComment

  /** `emoticonOnlyRegex`, `^[:=xX\-\^]*[mouth\s]*$`. The two classes are
      disjoint, so the first part takes the leading run of the first
      class. */
  predicate EmoticonOnly(text: string) {
    var k := Text.LeadCount(text, IsFace);
    forall j :: k <= j < |text| ==> IsMouth(text[j]) || Text.IsJsSpace(text[j])
  }

  /** `[:=xX\-\^]`. */
  predicate IsFace(c: char) {
    IsEyes(c) || IsNose(c)
  }

  predicate HasLetter(w: string) {
    exists k :: 0 <= k < |w| && IsLetter(w[k])
  }

  /** The words with a letter among `words`, in order. */
  function LetterWords(words: seq<string>): (r: seq<string>)
    ensures |r| <= |words|
    ensures forall i :: 0 <= i < |r| ==> r[i] in words && HasLetter(r[i])
  {
    if words == [] then []
    else (if HasLetter(words[0]) then [words[0]] else []) + LetterWords(words[1..])
  }

  /** `processedText.split(/\s+/).filter(...)`: the non-empty pieces of the
      split are the maximal runs without whitespace. */
  function Words(processed: string): seq<string> {
    LetterWords(Text.WordsBy(processed, Text.IsJsSpace))
  }

  const AllowedAcronyms: seq<string> := ["vnch", "vncs", "vn"]

  predicate HasAllowedAcronym(words: seq<string>) {
    exists i :: 0 <= i < |words| && Text.Lower(words[i]) in AllowedAcronyms
  }

  /** `isValidComment`. */
  function IsValidComment(text: string): (ok: bool)
    ensures ok <==> ProcessCommentText(text).Some? && ProcessCommentText(text).value != ""
                    && !EmojiOnly(text) && !EmoticonOnly(text)
                    && (HasAllowedAcronym(Words(ProcessCommentText(text).value)) || |Words(ProcessCommentText(text).value)| > 3)
  {
    if text == "" then false
    else
      var processedText := ProcessCommentText(text);
      if processedText.None? || processedText.value == "" then false
      else if EmojiOnly(text) then false
      else if EmoticonOnly(text) then false
      else
        var words := Words(processedText.value);
        var hasAllowedAcronym := HasAllowedAcronym(words);
        var minWords := if hasAllowedAcronym then 1 else 3;
        if |words| <= minWords then hasAllowedAcronym else true
  }

  /** An accepted comment has at least one word, and at least four without
      an allowed acronym. */
  lemma ValidHasWords(text: string)
    requires IsValidComment(text)
    ensures var words := Words(ProcessCommentText(text).value);
      |words| >= 1 && (!HasAllowedAcronym(words) ==> |words| >= 4)
  {
  }

  // ---------------------------------------------------------------------
  // containsURL

  /** The `i` flag: ASCII letters compared without case. */
  function AsciiLower(s: string): (r: string)
    ensures |r| == |s|
  {
    seq(|s|, k requires 0 <= k < |s| => if 'A' <= s[k] <= 'Z' then (s[k] as int + 32) as char else s[k])
  }

  const Domains: seq<string> := ["com", "org", "net", "edu", "gov", "io", "co", "tv", "me", "ly", "be", "gl"]

  /** A match of one of the three alternatives of the URL pattern starts
      at `i` of the lower-cased text. */
  predicate UrlAt(s: string, i: nat) {
    (Text.OccursAt(s, "http://", i) && i + 7 < |s| && !Text.IsJsSpace(s[i + 7]))
    || (Text.OccursAt(s, "https://", i) && i + 8 < |s| && !Text.IsJsSpace(s[i + 8]))
    || (Text.OccursAt(s, "www.", i) && i + 4 < |s| && !Text.IsJsSpace(s[i + 4]))
    || (0 < i < |s| && !Text.IsJsSpace(s[i - 1]) && s[i] == '.'
        && exists d :: 0 <= d < |Domains| && Text.OccursAt(s, Domains[d], i + 1))
  }

  /** `containsURL`. */
  predicate ContainsUrl(text: string) {
    var s := AsciiLower(text);
    exists i :: 0 <= i < |s| && UrlAt(s, i)
  }

  /** Every URL the pattern finds holds a '.' or a '/'. */
  lemma NoUrlWithoutDotOrSlash(text: string)
    requires forall k :: 0 <= k < |text| ==> text[k] != '.' && text[k] != '/'
    ensures !ContainsUrl(text)
  {
    var s := AsciiLower(text);
    assert forall k :: 0 <= k < |s| ==> s[k] != '.' && s[k] != '/';
    forall i | 0 <= i < |s| ensures !UrlAt(s, i) {
      if i + 7 <= |s| { assert s[i..i + 7][5] == s[i + 5] && "http://"[5] == '/'; }
      if i + 8 <= |s| { assert s[i..i + 8][6] == s[i + 6] && "https://"[6] == '/'; }
      if i + 4 <= |s| { assert s[i..i + 4][3] == s[i + 3] && "www."[3] == '.'; }
    }
  }

  // ---------------------------------------------------------------------
  // convertYouTubeTimeToDate

  const Truoc: string := "tr\U{01B0}\U{1EDB}c"

  /** The move back a unit word asks for: "ngày" days, "tuần" weeks of
      seven days, "tháng" months, "năm" years, "giờ" hours, "phút"
      minutes. */
  function UnitShift(word: string, n: nat): Option<Dates.Shift> {
    if word == "ng\U{00E0}y" then Some(Dates.Back(Dates.Days, n))
    else if word == "tu\U{1EA7}n" then Some(Dates.Back(Dates.Days, n * 7))
    else if word == "th\U{00E1}ng" then Some(Dates.Back(Dates.Months, n))
    else if word == "n\U{0103}m" then Some(Dates.Back(Dates.Years, n))
    else if word == "gi\U{1EDD}" then Some(Dates.Back(Dates.Hours, n))
    else if word == "ph\U{00FA}t" then Some(Dates.Back(Dates.Minutes, n))
    else None
  }

  /** The unit word of "<unit>\s+trước": the run before the whitespace,
      when the whitespace is followed by "trước" and nothing else. */
  function UnitOf(tail: string): Option<string> {
    var w := Text.RunCount(tail, Text.IsJsSpace);
    var after := tail[w..];
    var s2 := Text.LeadCount(after, Text.IsJsSpace);
    if s2 > 0 && after[s2..] == Truoc then Some(tail[..w]) else None
  }

  /** The move back a raw age asks for: `/^\d+\s+<unit>\s+trước$/`, with
      the leading digits read as the amount; None for any other text. Digits,
      whitespace and the words are disjoint, so every part is the longest
      run of its kind. */
  function AgeShift(raw: string): Option<Dates.Shift> {
    var d := Text.LeadCount(raw, Text.IsAsciiDigit);
    var rest := raw[d..];
    var s1 := Text.LeadCount(rest, Text.IsJsSpace);
    if d > 0 && s1 > 0 then
      match UnitOf(rest[s1..])
      case Some(w) => UnitShift(w, Text.DigitsValue(raw[..d]))
      case None => None
    else None
  }

  /** `convertYouTubeTimeToDate`. */
  function ConvertYouTubeTime(raw: string, clock: Dates.Shift -> Dates.Day): (r: string)
    ensures AgeShift(raw).None? ==> r == raw
  {
    match AgeShift(raw)
    case None => raw
    case Some(shift) => Dates.Ddmmyyyy(clock(shift))
  }

  predicate IsUnitWord(w: string) {
    w == "ng\U{00E0}y" || w == "tu\U{1EA7}n" || w == "th\U{00E1}ng" || w == "n\U{0103}m" || w == "gi\U{1EDD}" || w == "ph\U{00FA}t"
  }

  /** The unit words hold neither whitespace nor digits. */
  lemma UnitWordPlain(w: string)
    requires IsUnitWord(w)
    ensures w != [] && forall k :: 0 <= k < |w| ==> !Text.IsJsSpace(w[k]) && !Text.IsAsciiDigit(w[k])
  {
  }

  /** How `UnitOf` takes "<w><sp2>trước" apart. */
  lemma UnitParts(w: string, sp2: string)
    requires forall k :: 0 <= k < |w| ==> !Text.IsJsSpace(w[k])
    requires sp2 != [] && Text.AllBy(sp2, Text.IsJsSpace)
    ensures UnitOf(w + sp2 + Truoc) == Some(w)
  {
    var tail := w + (sp2 + Truoc);
    assert w + sp2 + Truoc == tail;
    Text.RunCountAppend(w, sp2 + Truoc, Text.IsJsSpace);
    assert tail[..|w|] == w && tail[|w|..] == sp2 + Truoc;
    Text.LeadCountAppend(sp2, Truoc, Text.IsJsSpace);
    assert (sp2 + Truoc)[|sp2|..] == Truoc;
  }

  /** How `AgeShift` takes "<digits><sp1><tail>" apart. */
  lemma AgeParts(digits: string, sp1: string, tail: string)
    requires Text.AllDigits(digits) && tail != [] && !Text.IsJsSpace(tail[0]) && !Text.IsAsciiDigit(tail[0])
    requires sp1 != [] && Text.AllBy(sp1, Text.IsJsSpace)
    ensures AgeShift(digits + sp1 + tail)
            == match UnitOf(tail) case Some(w) => UnitShift(w, Text.DigitsValue(digits)) case None => None
  {
    var raw := digits + sp1 + tail;
    var rest := sp1 + tail;
    assert raw == digits + rest;
    Text.LeadCountAppend(digits, rest, Text.IsAsciiDigit);
    assert raw[|digits|..] == rest && raw[..|digits|] == digits;
    Text.LeadCountAppend(sp1, tail, Text.IsJsSpace);
    assert rest[|sp1|..] == tail;
  }

  lemma Regroup(a: string, b: string, c: string, d: string, e: string)
    ensures a + b + c + d + e == a + b + (c + d + e)
  {
  }

  /** "<n> <unit> trước", with any whitespace runs between the parts, is n
      units back. */
  lemma ConvertAge(n: nat, sp1: string, w: string, sp2: string, clock: Dates.Shift -> Dates.Day)
    requires IsUnitWord(w)
    requires sp1 != [] && Text.AllBy(sp1, Text.IsJsSpace) && sp2 != [] && Text.AllBy(sp2, Text.IsJsSpace)
    ensures var raw := Text.NatToString(n) + sp1 + w + sp2 + Truoc;
      UnitShift(w, n).Some? && AgeShift(raw) == UnitShift(w, n)
      && ConvertYouTubeTime(raw, clock) == Dates.Ddmmyyyy(clock(UnitShift(w, n).value))
  {
    UnitWordPlain(w);
    UnitParts(w, sp2);
    AgeParts(Text.NatToString(n), sp1, w + sp2 + Truoc);
    Regroup(Text.NatToString(n), sp1, w, sp2, Truoc);
    Text.NatToStringValue(n);
  }

  /** A printed date holds digits and dashes only. */
  lemma PrintedNoSpace(d: Dates.Day)
    ensures forall k :: 0 <= k < |Dates.Ddmmyyyy(d)| ==> !Text.IsJsSpace(Dates.Ddmmyyyy(d)[k])
  {
    var r := Dates.Ddmmyyyy(d);
    var a := Text.Pad2(d.day);
    var b := Text.Pad2(d.month);
    var c := Text.NatToString(d.year);
    assert r == a + "-" + b + "-" + c;
  }

  /** A converted date is kept as it is: converting twice is converting
      once. */
  lemma ConvertTwice(raw: string, clock: Dates.Shift -> Dates.Day)
    ensures ConvertYouTubeTime(ConvertYouTubeTime(raw, clock), clock) == ConvertYouTubeTime(raw, clock)
  {
    if AgeShift(raw).Some? {
      var r := Dates.Ddmmyyyy(clock(AgeShift(raw).value));
      PrintedNoSpace(clock(AgeShift(raw).value));
      var d := Text.LeadCount(r, Text.IsAsciiDigit);
      assert d < |r| ==> !Text.IsJsSpace(r[d..][0]);
    }
  }

  // ---------------------------------------------------------------------
  // getVideoId

  /** `/[?&]v=([^&]+)/` matches at `p`. */
  predicate VAt(url: string, p: nat) {
    p + 3 < |url| && (url[p] == '?' || url[p] == '&') && url[p + 1] == 'v' && url[p + 2] == '=' && url[p + 3] != '&'
  }

  predicate IsAmp(c: char) {
    c == '&'
  }

  /** The captured value: the longest run without '&' after "v=". */
  function ValueAt(url: string, p: nat): (v: string)
    requires VAt(url, p)
    ensures v != [] && forall k :: 0 <= k < |v| ==> v[k] != '&'
  {
    url[p + 3..][..Text.RunCount(url[p + 3..], IsAmp)]
  }

  /** The leftmost match at or after `p`. */
  function MatchFrom(url: string, p: nat): (m: Option<string>)
    requires p <= |url|
    ensures m.Some? ==> m.value != [] && forall k :: 0 <= k < |m.value| ==> m.value[k] != '&'
    decreases |url| - p
  {
    if p == |url| then None
    else if VAt(url, p) then Some(ValueAt(url, p))
    else MatchFrom(url, p + 1)
  }

  /** `getVideoId` on `window.location.href`. */
  function VideoId(url: string): (id: string)
    ensures id != [] && forall k :: 0 <= k < |id| ==> id[k] != '&'
  {
    match MatchFrom(url, 0)
    case Some(v) => v
    case None => "unknown"
  }

  /** There is no match exactly when no place matches. */
  lemma {:induction false} MatchNone(url: string, p: nat)
    requires p <= |url|
    ensures MatchFrom(url, p).None? <==> forall q :: p <= q < |url| ==> !VAt(url, q)
    decreases |url| - p
  {
    if p < |url| && !VAt(url, p) {
      MatchNone(url, p + 1);
    }
  }

  /** A match is the value at the leftmost place that matches. */
  lemma {:induction false} MatchLeftmost(url: string, p: nat, q: nat)
    requires p <= q < |url| && VAt(url, q) && forall j :: p <= j < q ==> !VAt(url, j)
    ensures MatchFrom(url, p) == Some(ValueAt(url, q))
    decreases q - p
  {
    if p < q {
      MatchLeftmost(url, p + 1, q);
    }
  }

  /** The id of a watch address "<path>?v=<id>", or "<path>?v=<id>&<more>",
      with no '?' or '&' in the path, is `id`. */
  lemma VideoIdOf(path: string, id: string, more: string)
    requires forall k :: 0 <= k < |path| ==> path[k] != '?' && path[k] != '&'
    requires id != [] && forall k :: 0 <= k < |id| ==> id[k] != '&'
    ensures VideoId(path + "?v=" + id) == id
    ensures VideoId(path + "?v=" + id + "&" + more) == id
  {
    var u1 := path + "?v=" + id;
    var u2 := path + "?v=" + id + "&" + more;
    var p := |path|;
    assert VAt(u1, p) && VAt(u2, p);
    assert forall j :: 0 <= j < p ==> u1[j] == path[j] && u2[j] == path[j];
    MatchLeftmost(u1, 0, p);
    MatchLeftmost(u2, 0, p);
    assert u1[p + 3..] == id + [];
    Text.RunCountAppend(id, [], IsAmp);
    assert u2[p + 3..] == id + ("&" + more);
    Text.RunCountAppend(id, "&" + more, IsAmp);
  }

  // ---------------------------------------------------------------------
  // loadAllComments

  /** One round of `loadAllComments` as the page shows it: the number of
      threads when it starts, the buttons it clicked, the number of threads
      after the clicks or the scroll. */
  datatype Round = Round(before: nat, clicked: nat, after: nat)

  const MaxStableCount: nat := 3
  const MaxIterations: nat := 50
  const ClickPatience: nat := 30

  /** Whether each of the first `n` rounds changed the thread count. */
  function Grew(view: nat -> Round, n: nat): (g: seq<bool>)
    ensures |g| == n
  {
    if n == 0 then [] else Grew(view, n - 1) + [view(n - 1).after != view(n - 1).before]
  }

  /** The loop ends after round `n`: three rounds in a row without a new
      thread, the fiftieth round, or a round past the thirtieth that clicked
      nothing. */
  predicate Halts(view: nat -> Round, n: nat) {
    n > 0 && (Patience.Idle(Grew(view, n)) >= MaxStableCount || n >= MaxIterations
              || (n > ClickPatience && view(n - 1).clicked == 0))
  }

  /** The state at the head of the loop after `iteration` rounds. */
  predicate Loading(view: nat -> Round, iteration: nat, stableCount: nat, lastCommentCount: nat) {
    iteration <= MaxIterations
    && stableCount == Patience.Idle(Grew(view, iteration))
    && (forall k :: 0 < k < iteration ==> !Halts(view, k))
    && (iteration > 0 ==> !(iteration > ClickPatience && view(iteration - 1).clicked == 0)
                          && lastCommentCount == view(iteration - 1).after)
  }

  /** The stable count after one more round. */
  lemma IdleNext(view: nat -> Round, n: nat)
    ensures Patience.Idle(Grew(view, n + 1))
            == if view(n).after == view(n).before then Patience.Idle(Grew(view, n)) + 1 else 0
  {
    var g := Grew(view, n + 1);
    assert g[..n] == Grew(view, n);
  }

  /** One more round: the stable count follows the new round, or the round
      ends the loop. */
  lemma LoadStep(view: nat -> Round, iteration: nat, stableCount: nat, lastCommentCount: nat, next: nat)
    requires Loading(view, iteration, stableCount, lastCommentCount)
    requires stableCount < MaxStableCount && iteration < MaxIterations
    requires next == if view(iteration).after == view(iteration).before then stableCount + 1 else 0
    ensures iteration + 1 > ClickPatience && view(iteration).clicked == 0 ==> Halts(view, iteration + 1)
    ensures !(iteration + 1 > ClickPatience && view(iteration).clicked == 0)
            ==> Loading(view, iteration + 1, next, view(iteration).after)
    ensures forall k :: 0 < k < iteration + 1 ==> !Halts(view, k)
    ensures next >= MaxStableCount || iteration + 1 >= MaxIterations ==> Halts(view, iteration + 1)
  {
    IdleNext(view, iteration);
    assert iteration > 0 ==> !Halts(view, iteration);
  }

  /** `loadAllComments`: the rounds it runs, and the last thread count it
      logs. `view(r)` is round `r + 1`. */
  method LoadAllComments(view: nat -> Round) returns (iteration: nat, lastCommentCount: nat)
    ensures Halts(view, iteration) && forall k :: 0 < k < iteration ==> !Halts(view, k)
    ensures lastCommentCount == view(iteration - 1).after
  {
    lastCommentCount := 0;
    var stableCount: nat := 0;
    iteration := 0;
    while stableCount < MaxStableCount && iteration < MaxIterations
      invariant Loading(view, iteration, stableCount, lastCommentCount)
      decreases MaxIterations - iteration
    {
      var round := view(iteration);
      var currentCommentCount := round.before;
      var clicked := round.clicked;
      var newCommentCount := round.after;
      var next: nat := if newCommentCount == currentCommentCount then stableCount + 1 else 0;
      LoadStep(view, iteration, stableCount, lastCommentCount, next);
      iteration := iteration + 1;
      stableCount := next;
      lastCommentCount := newCommentCount;
      if iteration > ClickPatience && clicked == 0 {
        break;
      }
    }
  }

  /** The loop runs between 3 and 50 rounds. */
  lemma LoadBounds(view: nat -> Round, iteration: nat)
    requires Halts(view, iteration) && forall k :: 0 < k < iteration ==> !Halts(view, k)
    ensures 3 <= iteration <= MaxIterations
  {
    if iteration > MaxIterations {
      assert Halts(view, MaxIterations);
    }
  }

  /** When the count never changes, the loop runs exactly 3 rounds. */
  lemma LoadSteady(view: nat -> Round, iteration: nat)
    requires Halts(view, iteration) && forall k :: 0 < k < iteration ==> !Halts(view, k)
    requires forall r :: view(r).after == view(r).before
    ensures iteration == 3
  {
    LoadBounds(view, iteration);
    IdleNext(view, 0);
    IdleNext(view, 1);
    IdleNext(view, 2);
    assert Halts(view, 3);
  }

  /** When every round changes the count and clicks a button, the loop
      runs all 50 rounds. */
  lemma LoadBusy(view: nat -> Round, iteration: nat)
    requires Halts(view, iteration) && forall k :: 0 < k < iteration ==> !Halts(view, k)
    requires forall r :: view(r).after != view(r).before && view(r).clicked > 0
    ensures iteration == MaxIterations
  {
    LoadBounds(view, iteration);
    assert Grew(view, iteration)[iteration - 1];
  }

  // ---------------------------------------------------------------------
  // collectData

  /** A comment as the page gives it. */
  datatype Comment = Comment(author: string, text: string, timestamp: string)

  /** A comment thread: its top comment (`#comment`), if it has one, and
      its replies. */
  datatype Thread = Thread(main: Option<Comment>, replies: seq<Comment>)

  const Header: seq<string> := ["post_id", "post_raw", "comment_id", "author", "created_time", "comment_raw"]

  /** `commentText && commentText.trim() !== ''`. */
  predicate HasText(c: Comment) {
    c.text != "" && Text.JsTrim(c.text) != ""
  }

  /** A comment with text that passes both filters. */
  predicate Passes(c: Comment) {
    !ContainsUrl(c.text) && IsValidComment(c.text)
  }

  /** The replies that get a line, in order. */
  function KeptReplies(replies: seq<Comment>): (r: seq<Comment>)
    decreases |replies|
  {
    if replies == [] then []
    else
      var last := replies[|replies| - 1];
      KeptReplies(replies[..|replies| - 1]) + (if HasText(last) && Passes(last) then [last] else [])
  }

  lemma KeptRepliesNext(replies: seq<Comment>, j: nat)
    requires j < |replies|
    ensures KeptReplies(replies[..j + 1])
            == KeptReplies(replies[..j]) + (if HasText(replies[j]) && Passes(replies[j]) then [replies[j]] else [])
  {
    assert replies[..j + 1][..j] == replies[..j];
  }

  /** The comments of one thread that get a line: a top comment with text
      that fails a filter silences the whole thread, replies included. */
  function ThreadKept(t: Thread): seq<Comment> {
    if t.main.Some? && HasText(t.main.value) then
      if Passes(t.main.value) then [t.main.value] + KeptReplies(t.replies) else []
    else KeptReplies(t.replies)
  }

  /** The comments that get a line, thread by thread. */
  function Kept(threads: seq<Thread>): seq<Comment>
    decreases |threads|
  {
    if threads == [] then [] else Kept(threads[..|threads| - 1]) + ThreadKept(threads[|threads| - 1])
  }

  /** `processedText || commentText`. */
  function RowText(text: string): string {
    var processedText := ProcessCommentText(text);
    if processedText.Some? && processedText.value != "" then processedText.value else text
  }

  /** `video_id + '_' + validCommentCount`, for the `k`-th kept comment. */
  function CommentId(videoId: string, k: nat): string {
    videoId + "_" + Text.NatToString(k + 1)
  }

  /** The timestamp column. */
  function Created(c: Comment, clock: Dates.Shift -> Dates.Day): string {
    ConvertYouTubeTime(c.timestamp, clock)
  }

  function Fields(c: Comment, k: nat, videoId: string, title: string, created: Comment -> string): seq<string> {
    [videoId, title, CommentId(videoId, k), c.author, created(c), RowText(c.text)]
  }

  function Rows(kept: seq<Comment>, videoId: string, title: string, created: Comment -> string): (r: seq<seq<string>>)
    ensures |r| == |kept| && forall k :: 0 <= k < |kept| ==> r[k] == Fields(kept[k], k, videoId, title, created)
  {
    seq(|kept|, k requires 0 <= k < |kept| => Fields(kept[k], k, videoId, title, created))
  }

  /** The text and count once the comments `kept` have their lines. */
  predicate Written(kept: seq<Comment>, videoId: string, title: string, created: Comment -> string, csv: string, count: nat) {
    count == |kept| && csv == Csv.Sheet(Header, Rows(kept, videoId, title, created))
  }

  /** `collectData`: every thread in turn, its top comment and then its
      replies, each comment with text that passes the filters getting the
      next id and a line of six quoted values. `created` is the timestamp
      column, `c => Created(c, clock)`. The result is the text and
      `validCommentCount`. */
  method CollectData(threads: seq<Thread>, videoId: string, title: string, created: Comment -> string)
    returns (csv: string, validCommentCount: nat)
    ensures Written(Kept(threads), videoId, title, created, csv, validCommentCount)
  {
    csv := Text.Join(Header, ",") + "\n";
    validCommentCount := 0;
    var i := 0;
    KeptEnds(threads);
    while i < |threads|
      invariant i <= |threads| && Written(Kept(threads[..i]), videoId, title, created, csv, validCommentCount)
    {
      csv, validCommentCount := CollectThread(threads[i], videoId, title, created, Kept(threads[..i]), csv, validCommentCount);
      KeptNext(threads, i);
      i := i + 1;
    }
  }

  lemma KeptEnds(threads: seq<Thread>)
    ensures Kept(threads[..0]) == [] && Kept(threads[..|threads|]) == Kept(threads)
  {
    assert threads[..0] == [] && threads[..|threads|] == threads;
  }

  lemma KeptNext(threads: seq<Thread>, i: nat)
    requires i < |threads|
    ensures Kept(threads[..i + 1]) == Kept(threads[..i]) + ThreadKept(threads[i])
  {
    assert threads[..i + 1][..i] == threads[..i];
  }

  /** The body of the outer `forEach`: one thread. The `return`s leave
      the thread before its replies are visited. */
  method CollectThread(t: Thread, videoId: string, title: string, created: Comment -> string,
                       ghost done: seq<Comment>, csv: string, count: nat)
    returns (next: string, nextCount: nat)
    requires Written(done, videoId, title, created, csv, count)
    ensures Written(done + ThreadKept(t), videoId, title, created, next, nextCount)
  {
    next, nextCount := csv, count;
    ghost var head: seq<Comment> := [];
    ghost var before := done;
    if t.main.Some? {
      var mainComment := t.main.value;
      if mainComment.text != "" && Text.JsTrim(mainComment.text) != "" {
        if ContainsUrl(mainComment.text) {
          ThreadSilenced(t);
          assert done + ThreadKept(t) == done;
          return;
        }
        if !IsValidComment(mainComment.text) {
          ThreadSilenced(t);
          assert done + ThreadKept(t) == done;
          return;
        }
        next, nextCount := AddLine(mainComment, videoId, title, created, done, next, nextCount);
        head := [mainComment];
        before := done + head;
      }
    }
    ThreadHead(t, head);
    next, nextCount := CollectReplies(t.replies, videoId, title, created, before, next, nextCount);
    Associate(done, head, KeptReplies(t.replies));
    assert before == done + head;
  }

  lemma Associate<T>(a: seq<T>, b: seq<T>, c: seq<T>)
    ensures a + b + c == a + (b + c) && a + [] == a
  {
  }

  /** A top comment with text that fails a filter silences its thread. */
  lemma ThreadSilenced(t: Thread)
    requires t.main.Some? && HasText(t.main.value) && !Passes(t.main.value)
    ensures ThreadKept(t) == []
  {
  }

  /** Otherwise the thread's lines are its top comment's, if it has text,
      then its replies'. */
  lemma ThreadHead(t: Thread, head: seq<Comment>)
    requires head == if t.main.Some? && HasText(t.main.value) then [t.main.value] else []
    requires t.main.Some? && HasText(t.main.value) ==> Passes(t.main.value)
    ensures ThreadKept(t) == head + KeptReplies(t.replies)
  {
  }

  /** The inner `forEach`: the replies of one thread; a reply's `return`
      skips that reply only. */
  method CollectReplies(replies: seq<Comment>, videoId: string, title: string, created: Comment -> string,
                        ghost done: seq<Comment>, csv: string, count: nat)
    returns (next: string, nextCount: nat)
    requires Written(done, videoId, title, created, csv, count)
    ensures Written(done + KeptReplies(replies), videoId, title, created, next, nextCount)
  {
    next, nextCount := csv, count;
    var j := 0;
    RepliesStart(done, replies);
    while j < |replies|
      invariant j <= |replies| && Written(done + KeptReplies(replies[..j]), videoId, title, created, next, nextCount)
    {
      next, nextCount := CollectReplyAt(replies, j, videoId, title, created, done, next, nextCount);
      j := j + 1;
    }
    RepliesEnd(done, replies);
  }

  lemma RepliesStart(done: seq<Comment>, replies: seq<Comment>)
    ensures done + KeptReplies(replies[..0]) == done
  {
    assert replies[..0] == [];
  }

  lemma RepliesEnd(done: seq<Comment>, replies: seq<Comment>)
    ensures done + KeptReplies(replies[..|replies|]) == done + KeptReplies(replies)
  {
    assert replies[..|replies|] == replies;
  }

  /** Reply `j` of the thread, after the first `j`. */
  method CollectReplyAt(replies: seq<Comment>, j: nat, videoId: string, title: string, created: Comment -> string,
                        ghost done: seq<Comment>, csv: string, count: nat)
    returns (next: string, nextCount: nat)
    requires j < |replies| && Written(done + KeptReplies(replies[..j]), videoId, title, created, csv, count)
    ensures Written(done + KeptReplies(replies[..j + 1]), videoId, title, created, next, nextCount)
  {
    ghost var before := done + KeptReplies(replies[..j]);
    next, nextCount := CollectReply(replies[j], videoId, title, created, before, csv, count);
    RepliesStep(done, replies, j);
  }

  lemma RepliesStep(done: seq<Comment>, replies: seq<Comment>, j: nat)
    requires j < |replies|
    ensures done + KeptReplies(replies[..j]) + (if HasText(replies[j]) && Passes(replies[j]) then [replies[j]] else [])
            == done + KeptReplies(replies[..j + 1])
  {
    KeptRepliesNext(replies, j);
    Associate(done, KeptReplies(replies[..j]), if HasText(replies[j]) && Passes(replies[j]) then [replies[j]] else []);
  }

  /** The body of the inner `forEach`: one reply. */
  method CollectReply(reply: Comment, videoId: string, title: string, created: Comment -> string,
                      ghost done: seq<Comment>, csv: string, count: nat)
    returns (next: string, nextCount: nat)
    requires Written(done, videoId, title, created, csv, count)
    ensures Written(done + (if HasText(reply) && Passes(reply) then [reply] else []), videoId, title, created, next, nextCount)
  {
    if reply.text != "" && Text.JsTrim(reply.text) != "" && !ContainsUrl(reply.text) && IsValidComment(reply.text) {
      next, nextCount := AddLine(reply, videoId, title, created, done, csv, count);
    } else {
      next, nextCount := csv, count;
      assert done + [] == done;
    }
  }

  /** One accepted comment: the next id and its line. */
  method AddLine(c: Comment, videoId: string, title: string, created: Comment -> string,
                 ghost done: seq<Comment>, csv: string, count: nat)
    returns (next: string, nextCount: nat)
    requires Written(done, videoId, title, created, csv, count)
    ensures Written(done + [c], videoId, title, created, next, nextCount)
  {
    var processedText := ProcessCommentText(c.text);
    var createdTime := created(c);
    nextCount := count + 1;
    var commentId := videoId + "_" + Text.NatToString(nextCount);
    var text := if processedText.Some? && processedText.value != "" then processedText.value else c.text;
    var cells := [Csv.Quote(videoId), Csv.Quote(title), Csv.Quote(commentId),
                  Csv.Quote(c.author), Csv.Quote(createdTime), Csv.Quote(text)];
    next := csv + (Text.Join(cells, ",") + "\n");
    RowLine(done, c, videoId, title, created, cells);
  }

  /** One more kept comment adds its quoted line. */
  lemma {:induction false} RowLine(kept: seq<Comment>, c: Comment, videoId: string, title: string, created: Comment -> string, cells: seq<string>)
    requires cells == [Csv.Quote(videoId), Csv.Quote(title), Csv.Quote(CommentId(videoId, |kept|)),
                       Csv.Quote(c.author), Csv.Quote(created(c)), Csv.Quote(RowText(c.text))]
    ensures Csv.Sheet(Header, Rows(kept + [c], videoId, title, created))
            == Csv.Sheet(Header, Rows(kept, videoId, title, created)) + (Text.Join(cells, ",") + "\n")
  {
    var f := Fields(c, |kept|, videoId, title, created);
    Csv.QuoteSix(f, cells);
    var rows := Rows(kept, videoId, title, created);
    RowsSnoc(kept, c, videoId, title, created);
    Csv.SheetSnoc(Header, rows, f, cells);
  }

  lemma RowsSnoc(kept: seq<Comment>, c: Comment, videoId: string, title: string, created: Comment -> string)
    ensures Rows(kept + [c], videoId, title, created)
            == Rows(kept, videoId, title, created) + [Fields(c, |kept|, videoId, title, created)]
  {
    var a := Rows(kept + [c], videoId, title, created);
    var b := Rows(kept, videoId, title, created) + [Fields(c, |kept|, videoId, title, created)];
    forall k | 0 <= k < |a|
      ensures a[k] == b[k]
    {
      if k < |kept| {
        assert (kept + [c])[k] == kept[k];
      }
    }
  }

  /** Read back with `csv.reader`, the text gives the header and then each
      kept comment's six values. */
  lemma {:induction false} CsvReadsBack(kept: seq<Comment>, videoId: string, title: string, created: Comment -> string)
    ensures Csv.ReadLines(Csv.Sheet(Header, Rows(kept, videoId, title, created)))
            == Some([Header] + Rows(kept, videoId, title, created))
  {
    assert forall i :: 0 <= i < |Header| ==> Csv.Plain(Header[i]);
    Csv.ReadSheet(Header, Rows(kept, videoId, title, created));
  }

  /** The ids number the kept comments from 1 without gaps: different
      positions get different ids. */
  lemma IdsDistinct(videoId: string, i: nat, j: nat)
    requires CommentId(videoId, i) == CommentId(videoId, j)
    ensures i == j
  {
    var k := |videoId| + 1;
    assert CommentId(videoId, i)[k..] == Text.NatToString(i + 1);
    assert CommentId(videoId, j)[k..] == Text.NatToString(j + 1);
    Text.NatToStringInjective(i + 1, j + 1);
  }

  /** The column of text is the processed text of every kept comment: the
      `|| commentText` fallback is never taken. */
  lemma RowTextProcessed(c: Comment)
    requires Passes(c)
    ensures ProcessCommentText(c.text).Some? && RowText(c.text) == ProcessCommentText(c.text).value
    ensures RowText(c.text) != ""
  {
  }

  /** Which comments of a thread get a line. */
  predicate Emitted(t: Thread, c: Comment) {
    HasText(c) && Passes(c)
    && (Some(c) == t.main
        || (c in t.replies && (t.main.None? || !HasText(t.main.value) || Passes(t.main.value))))
  }

  lemma {:induction false} KeptRepliesExactly(replies: seq<Comment>)
    ensures forall c :: c in KeptReplies(replies) <==> c in replies && HasText(c) && Passes(c)
    decreases |replies|
  {
    if replies != [] {
      KeptRepliesExactly(replies[..|replies| - 1]);
      assert replies == replies[..|replies| - 1] + [replies[|replies| - 1]];
    }
  }

  lemma ThreadKeptHas(t: Thread, c: Comment)
    ensures c in ThreadKept(t) <==> Emitted(t, c)
  {
    KeptRepliesExactly(t.replies);
  }

  /** A comment gets a line exactly when it has text and passes the
      filters and, for a reply, its thread's top comment is absent, empty
      or passes them too. */
  lemma KeptExactly(threads: seq<Thread>)
    ensures forall c :: c in Kept(threads) <==> exists k :: 0 <= k < |threads| && Emitted(threads[k], c)
  {
    KeptFlat(threads);
    forall c ensures c in Kept(threads) <==> exists k :: 0 <= k < |threads| && Emitted(threads[k], c) {
      if c in Kept(threads) {
        var k := Text.FlatMapFrom(threads, ThreadKept, c);
        ThreadKeptHas(threads[k], c);
      }
      if exists k :: 0 <= k < |threads| && Emitted(threads[k], c) {
        var k :| 0 <= k < |threads| && Emitted(threads[k], c);
        ThreadKeptHas(threads[k], c);
        Text.FlatMapAll(threads, ThreadKept, k, c);
      }
    }
  }

  /** `Kept` is the threads' lines one thread after the other. */
  lemma {:induction false} KeptFlat(threads: seq<Thread>)
    ensures Kept(threads) == Text.FlatMap(threads, ThreadKept)
    decreases |threads|
  {
    if threads != [] {
      KeptFlat(threads[..|threads| - 1]);
    }
  }
}
