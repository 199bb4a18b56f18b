/** The two-stage comment labeller that works post by post
    (preprocessing/02_gemini_labeling.py): post compression, the stance letter
    map, the CSV reply reader, the integer scoring with its proximity bonus,
    the score-based second stage, the four override rules, and the pipeline
    that runs them per batch of 35 comments of one post.

    Rows are dataframe positions (the sheet is read with a default RangeIndex)
    and label keys are Python ints, so a reply line may name any integer. A
    comment cell is its text or None when it is not a string (NaN). The
    keyword families are predicates on the lowercased comment; the two that
    the proximity rule measures are given as their match start positions.
    Each remote call is a reply per attempt, None when the attempt raised. */
module EnhancedLabel {
  import opened Wrappers
  import opened Labels
  import Text
  import Frames
  import Tokens

  // ---------------------------------------------------------------------
  // Post compression

  /** `text[:k]`. */
  function Head(text: string, k: nat): (r: string)
    ensures |r| == if |text| < k then |text| else k
    ensures r == text[..|r|]
  {
    if |text| <= k then text else text[..k]
  }

  /** `text[-k:]` for `k > 0`: the last `k` characters, or all of a shorter text. */
  function Tail(text: string, k: nat): (r: string)
    ensures |r| == if |text| < k then |text| else k
    ensures r == text[|text| - |r|..]
  {
    if |text| <= k then text else text[|text| - k..]
  }

  /** `compress_post`: the text itself within `limitTok` tokens; up to 4000
      tokens, its head and tail around " … "; beyond that the model's summary,
      or, when that call raised (`summary == None`), a shorter head and tail
      around " ... ". Except for the model's summary, the result always fits
      the larger of `limitTok` and 600 tokens. */
  function CompressPost(text: string, limitTok: nat, summary: Option<string>): (r: string)
    ensures Tokens.EstimateTokens(text) <= limitTok ==> r == text
    ensures (Tokens.EstimateTokens(text) <= 4000 || summary.None?) ==>
              Tokens.EstimateTokens(r) <= if limitTok < 600 then 600 else limitTok
  {
    var n := Tokens.EstimateTokens(text);
    if n <= limitTok then text
    else if n <= 4000 then Head(text, 1600) + " … " + Tail(text, 800)
    else match summary
      case Some(s) => s
      case None => Head(text, 1200) + " ... " + Tail(text, 600)
  }

  /** Between the limit and 4000 tokens the compressed post starts with the
      post's first 1600 characters and ends with its last 800. */
  lemma CompressPostKeepsEnds(text: string, limitTok: nat, summary: Option<string>)
    requires limitTok < Tokens.EstimateTokens(text) <= 4000
    ensures var r := CompressPost(text, limitTok, summary);
            var h := Head(text, 1600);
            var t := Tail(text, 800);
            |r| == |h| + 3 + |t| && r[..|h|] == text[..|h|] && r[|r| - |t|..] == text[|text| - |t|..]
  {
    var r := CompressPost(text, limitTok, summary);
    var h := Head(text, 1600);
    var t := Tail(text, 800);
    assert r == h + " … " + t;
    assert r[..|h|] == h;
    assert r[|r| - |t|..] == t;
  }

  // ---------------------------------------------------------------------
  // The post stance

  datatype Stance = PostAnti | PostNeutral | PostPro {
    function Name(): string {
      match this
      case PostAnti => "POST_ANTI"
      case PostNeutral => "POST_NEUTRAL"
      case PostPro => "POST_PRO"
    }
  }

  /** The letter map of `classify_stance_enhanced`: the first character of the
      stripped answer, uppercased, read as A, B or C, anything else neutral. */
  function StanceOfAnswer(text: string): (r: Stance)
    ensures Text.PyStrip(text) == [] ==> r == PostNeutral
  {
    var t := Text.PyStrip(text);
    var letter := Text.Upper(t[..if |t| < 1 then 0 else 1]);
    if letter == "A" then PostAnti
    else if letter == "B" then PostNeutral
    else if letter == "C" then PostPro
    else PostNeutral
  }

  /** An answer whose first non-space character is `c` reads as A, B or C
      exactly when `c` is that letter in either case. */
  lemma StanceOfLetter(lead: string, c: char, rest: string)
    requires forall k :: 0 <= k < |lead| ==> Text.IsPySpace(lead[k])
    requires !Text.IsPySpace(c)
    ensures var r := StanceOfAnswer(lead + [c] + rest);
            r == if c == 'A' || c == 'a' then PostAnti
                 else if c == 'C' || c == 'c' then PostPro
                 else PostNeutral
  {
    var s := lead + [c] + rest;
    var t := Text.PyStrip(s);
    var a := Text.LeadCount(s, Text.IsPySpace);
    assert s[|lead|] == c;
    assert a == |lead|;
    assert s[a] == c;
    assert t[..1] == [c];
    assert Text.Upper([c]) == [Text.UpperChar(c)];
  }

  // ---------------------------------------------------------------------
  // Retried calls

  /** The answer of the first attempt from `a` on, below `maxRetry`, that did not raise. */
  function FirstAnswer(reply: nat -> Option<string>, a: nat, maxRetry: nat): (r: Option<string>)
    ensures r.Some? ==> exists b :: a <= b < maxRetry && reply(b) == r
                                    && forall e :: a <= e < b ==> reply(e).None?
    ensures r.None? ==> forall e :: a <= e < maxRetry ==> reply(e).None?
    decreases maxRetry - a
  {
    if a >= maxRetry then None
    else if reply(a).Some? then reply(a)
    else FirstAnswer(reply, a + 1, maxRetry)
  }

  /** The retry loop of `classify_stance_enhanced` and `label_comments_enhanced_v3`. */
  method Retry(reply: nat -> Option<string>, maxRetry: nat) returns (answer: Option<string>)
    ensures answer == FirstAnswer(reply, 0, maxRetry)
  {
    var attempt := 0;
    while attempt < maxRetry
      invariant attempt <= maxRetry
      invariant FirstAnswer(reply, 0, maxRetry) == FirstAnswer(reply, attempt, maxRetry)
    {
      if reply(attempt).Some? {
        return reply(attempt);
      }
      attempt := attempt + 1;
    }
    return None;
  }

  /** `classify_stance_enhanced`: the stance of the first answer in three
      attempts, neutral when all of them raised. */
  method ClassifyStanceEnhanced(reply: nat -> Option<string>) returns (stance: Stance)
    ensures (forall a :: 0 <= a < 3 ==> reply(a).None?) ==> stance == PostNeutral
    ensures forall a :: 0 <= a < 3 && reply(a).Some? && (forall e :: 0 <= e < a ==> reply(e).None?) ==>
              stance == StanceOfAnswer(reply(a).value)
  {
    var answer := Retry(reply, 3);
    stance := if answer.Some? then StanceOfAnswer(answer.value) else PostNeutral;
  }

  /** Every comment of the rows is a string. */
  predicate AllStrings(rows: seq<nat>, texts: seq<Option<string>>) {
    forall i :: 0 <= i < |rows| ==> rows[i] < |texts| && texts[rows[i]].Some?
  }

  /** `label_comments_enhanced_v3`: the prompt is built before the retry loop,
      one line per comment of the batch, and its `txt.replace('|', ' ')`
      raises AttributeError, which nothing catches, at the first comment that
      is not a string: None here. Otherwise the CSV text is the first answer
      in three attempts, the empty text when all of them raised. */
  method LabelCommentsEnhanced(batch: seq<nat>, texts: seq<Option<string>>, reply: nat -> Option<string>)
    returns (csvText: Option<string>)
    requires forall i :: 0 <= i < |batch| ==> batch[i] < |texts|
    ensures csvText.None? <==> !AllStrings(batch, texts)
    ensures csvText.Some? ==> csvText.value == FirstAnswer(reply, 0, 3).GetOr("")
  {
    var i := 0;
    while i < |batch|
      invariant i <= |batch| && forall j :: 0 <= j < i ==> texts[batch[j]].Some?
    {
      if texts[batch[i]].None? {
        return None;
      }
      i := i + 1;
    }
    var answer := Retry(reply, 3);
    csvText := Some(answer.GetOr(""));
  }

  // ---------------------------------------------------------------------
  // The CSV reply

  /** The first ',' or '|' at or after `i`, or `|line|`. */
  function SeparatorAt(line: string, i: nat): (j: nat)
    requires i <= |line|
    ensures i <= j <= |line|
    ensures forall k :: i <= k < j ==> line[k] != ',' && line[k] != '|'
    ensures j < |line| ==> line[j] == ',' || line[j] == '|'
    decreases |line| - i
  {
    if i == |line| || line[i] == ',' || line[i] == '|' then i else SeparatorAt(line, i + 1)
  }

  /** The id and label one reply line carries: it is split at its first ',' or
      '|', the stripped left part must read as an integer (Python's `int`), and the stripped, uppercased right part must be a label
      name. Any other line is skipped. */
  function CsvEntry(line: string): (r: Option<(int, Label)>)
    ensures (forall k :: 0 <= k < |line| ==> line[k] != ',' && line[k] != '|') ==> r.None?
  {
    var sep := SeparatorAt(line, 0);
    if sep == |line| then None
    else
      var key := Text.PyInt(Text.PyStrip(line[..sep]));
      var name := FromName(Text.Upper(Text.PyStrip(line[sep + 1..])));
      if key.Some? && name.Some? then Some((key.value, name.value)) else None
  }

  /** The line a reply is asked for, `id,label`, reads back as that id and label. */
  lemma CsvEntryOfLine(id: nat, l: Label)
    ensures CsvEntry(Text.NatToString(id) + "," + l.Name()) == Some((id, l))
  {
    var digits := Text.NatToString(id);
    LineParts(digits, l.Name());
    IdPart(id);
    NamePart(l);
    CsvEntryParts(digits + "," + l.Name(), id, l);
  }

  /** `a,b` splits at the ',' after `a` when `a` holds no separator. */
  lemma LineParts(a: string, b: string)
    requires forall k :: 0 <= k < |a| ==> a[k] != ',' && a[k] != '|'
    ensures SeparatorAt(a + "," + b, 0) == |a|
    ensures (a + "," + b)[..|a|] == a && (a + "," + b)[|a| + 1..] == b
  {
    SeparatorAfter(a + "," + b, |a|);
  }

  /** The printed id reads back, stripped, as the id. */
  lemma IdPart(id: nat)
    ensures Text.PyInt(Text.PyStrip(Text.NatToString(id))) == Some(id)
  {
    Text.StripByUnchanged(Text.NatToString(id), Text.IsPySpace);
    Text.PyIntOfNat(id);
  }

  /** A label's name reads back, stripped and uppercased, as the label. */
  lemma NamePart(l: Label)
    ensures FromName(Text.Upper(Text.PyStrip(l.Name()))) == Some(l)
  {
    Text.StripByUnchanged(l.Name(), Text.IsPySpace);
    NameUpper(l);
    FromNameName(l);
  }

  /** A line whose two parts read as an id and a label name is that entry. */
  lemma CsvEntryParts(line: string, id: int, l: Label)
    requires SeparatorAt(line, 0) < |line|
    requires Text.PyInt(Text.PyStrip(line[..SeparatorAt(line, 0)])) == Some(id)
    requires FromName(Text.Upper(Text.PyStrip(line[SeparatorAt(line, 0) + 1..]))) == Some(l)
    ensures CsvEntry(line) == Some((id, l))
  {
  }

  /** The first separator from 0 is at `j` when `line[j]` is one and none comes before it. */
  lemma SeparatorAfter(line: string, j: nat)
    requires j < |line| && (line[j] == ',' || line[j] == '|')
    requires forall k :: 0 <= k < j ==> line[k] != ',' && line[k] != '|'
    ensures SeparatorAt(line, 0) == j
  {
  }

  /** Label names are already upper case. */
  lemma NameUpper(l: Label)
    ensures Text.Upper(l.Name()) == l.Name()
  {
  }

  /** The labels of the first `n` lines, a later line for an id overwriting an earlier one. */
  function CsvLabels(lines: seq<string>, n: nat, entry: string -> Option<(int, Label)>): map<int, Label>
    requires n <= |lines|
  {
    if n == 0 then map[]
    else
      var prev := CsvLabels(lines, n - 1, entry);
      match entry(lines[n - 1])
      case Some((id, l)) => prev[id := l]
      case None => prev
  }

  /** Line `j` carries id `id`. */
  predicate NamesId(lines: seq<string>, j: nat, id: int, entry: string -> Option<(int, Label)>)
    requires j < |lines|
  {
    entry(lines[j]).Some? && entry(lines[j]).value.0 == id
  }

  /** An id gets a label exactly when some line carries it, and the label is the one of the last such line. */
  lemma {:induction false} CsvLabelsAt(lines: seq<string>, n: nat, entry: string -> Option<(int, Label)>, id: int)
    requires n <= |lines|
    ensures id in CsvLabels(lines, n, entry) <==> exists j :: 0 <= j < n && NamesId(lines, j, id, entry)
    ensures id in CsvLabels(lines, n, entry) ==>
              exists j :: 0 <= j < n && NamesId(lines, j, id, entry)
                          && CsvLabels(lines, n, entry)[id] == entry(lines[j]).value.1
                          && forall j' :: j < j' < n ==> !NamesId(lines, j', id, entry)
  {
    if n > 0 {
      CsvLabelsAt(lines, n - 1, entry, id);
      if NamesId(lines, n - 1, id, entry) {
        assert CsvLabels(lines, n, entry)[id] == entry(lines[n - 1]).value.1;
      } else if id in CsvLabels(lines, n - 1, entry) {
        assert CsvLabels(lines, n, entry)[id] == CsvLabels(lines, n - 1, entry)[id];
      }
    }
  }

  /** `parse_csv`: the labels of the lines of the stripped reply. */
  function ParsedCsv(csvText: string): (r: map<int, Label>)
    ensures Text.PyStrip(csvText) == [] ==> r == map[]
  {
    var lines := Text.SplitLines(Text.PyStrip(csvText));
    CsvLabels(lines, |lines|, CsvEntry)
  }

  /** The line loop of `parse_csv` as written, each line read by `entry`. */
  method ReadCsvLines(lines: seq<string>, entry: string -> Option<(int, Label)>) returns (out: map<int, Label>)
    ensures out == CsvLabels(lines, |lines|, entry)
  {
    out := map[];
    var j := 0;
    while j < |lines|
      invariant j <= |lines| && out == CsvLabels(lines, j, entry)
    {
      var parsed := entry(lines[j]);
      if parsed.Some? {
        out := out[parsed.value.0 := parsed.value.1];
      }
      j := j + 1;
    }
  }

  /** `parse_csv` as written. */
  method ParseCsv(csvText: string) returns (out: map<int, Label>)
    ensures out == ParsedCsv(csvText)
  {
    if csvText == "" {
      return map[];
    }
    var lines := Text.SplitLines(Text.PyStrip(csvText));
    out := ReadCsvLines(lines, CsvEntry);
  }

  // ---------------------------------------------------------------------
  // Scoring

  /** The keyword families on the lowercased comment: the anti-government
      targets and the derogatory words by their match start positions (a
      family matches when it has a start), the others as predicates; the
      agreement words of the short-comment rule and the negation pattern of
      the fourth override rule included. */
  datatype Families = Families(
    antiTarget: string -> seq<nat>, negWord: string -> seq<nat>,
    govNeg: string -> bool, govPos: string -> bool, antiPos: string -> bool,
    ideologyNeg: string -> bool, agreement: string -> bool, negation: string -> bool)

  /** `abs(a - b)`. */
  function Dist(a: nat, b: nat): nat {
    if a < b then b - a else a - b
  }

  /** The smallest of `d` and the distances from `a` to the elements of `bs`. */
  function NearestFrom(d: nat, a: nat, bs: seq<nat>): (r: nat)
    ensures r <= d
    ensures forall j :: 0 <= j < |bs| ==> r <= Dist(a, bs[j])
  {
    if bs == [] then d
    else
      var prev := NearestFrom(d, a, bs[..|bs| - 1]);
      assert forall j :: 0 <= j < |bs| - 1 ==> bs[..|bs| - 1][j] == bs[j];
      var here := Dist(a, bs[|bs| - 1]);
      if here < prev then here else prev
  }

  /** The proximity distance of `score_comment`: the smallest distance
      between a start of `xs` and a start of `ys`, or 100 when every pair is
      further apart (or there is none). */
  function MinDistance(xs: seq<nat>, ys: seq<nat>): (r: nat)
    ensures r <= 100
    ensures forall i, j :: 0 <= i < |xs| && 0 <= j < |ys| ==> r <= Dist(xs[i], ys[j])
  {
    if xs == [] then 100
    else
      var prev := MinDistance(xs[..|xs| - 1], ys);
      assert forall i :: 0 <= i < |xs| - 1 ==> xs[..|xs| - 1][i] == xs[i];
      NearestFrom(prev, xs[|xs| - 1], ys)
  }

  /** The nearest distance is `d` or one of the distances. */
  lemma {:induction false} NearestFromAttained(d: nat, a: nat, bs: seq<nat>)
    ensures var r := NearestFrom(d, a, bs);
            r == d || exists j :: 0 <= j < |bs| && r == Dist(a, bs[j])
    decreases |bs|
  {
    if bs != [] {
      NearestFromAttained(d, a, bs[..|bs| - 1]);
      assert forall j :: 0 <= j < |bs| - 1 ==> bs[..|bs| - 1][j] == bs[j];
    }
  }

  /** The proximity distance is 100 or the distance of an actual pair of starts. */
  lemma {:induction false} MinDistanceAttained(xs: seq<nat>, ys: seq<nat>)
    ensures var r := MinDistance(xs, ys);
            r == 100 || exists i, j :: 0 <= i < |xs| && 0 <= j < |ys| && r == Dist(xs[i], ys[j])
    decreases |xs|
  {
    if xs != [] {
      var init := xs[..|xs| - 1];
      MinDistanceAttained(init, ys);
      NearestFromAttained(MinDistance(init, ys), xs[|xs| - 1], ys);
      assert forall i :: 0 <= i < |xs| - 1 ==> init[i] == xs[i];
    }
  }

  /** The close-pair test: the distance is within `k < 100` exactly when some pair of starts is. */
  lemma MinDistanceWithin(xs: seq<nat>, ys: seq<nat>, k: nat)
    requires k < 100
    ensures MinDistance(xs, ys) <= k <==> exists i, j :: 0 <= i < |xs| && 0 <= j < |ys| && Dist(xs[i], ys[j]) <= k
  {
    MinDistanceAttained(xs, ys);
  }

  /** One more start of the target extends the minimum by its nearest negative word. */
  lemma MinDistanceStep(xs: seq<nat>, ys: seq<nat>, i: nat)
    requires i < |xs|
    ensures MinDistance(xs[..i + 1], ys) == NearestFrom(MinDistance(xs[..i], ys), xs[i], ys)
  {
    assert xs[..i + 1][..i] == xs[..i];
  }

  /** The inner `finditer` loop of `score_comment`: one start of the target
      against every start of the negative words. */
  method NearestLoop(d0: nat, a: nat, ys: seq<nat>) returns (dist: nat)
    ensures dist == NearestFrom(d0, a, ys)
  {
    dist := d0;
    var j := 0;
    while j < |ys|
      invariant j <= |ys| && dist == NearestFrom(d0, a, ys[..j])
    {
      var curr := Dist(a, ys[j]);
      dist := if curr < dist then curr else dist;
      assert ys[..j + 1][..j] == ys[..j];
      j := j + 1;
    }
    assert ys[..j] == ys;
  }

  /** The nested `finditer` loops of `score_comment`. */
  method ProximityDistance(xs: seq<nat>, ys: seq<nat>) returns (dist: nat)
    ensures dist == MinDistance(xs, ys)
  {
    dist := 100;
    var i := 0;
    while i < |xs|
      invariant i <= |xs| && dist == MinDistance(xs[..i], ys)
    {
      dist := NearestLoop(dist, xs[i], ys);
      MinDistanceStep(xs, ys, i);
      i := i + 1;
    }
    assert xs[..i] == xs;
  }

  /** At most ten words, by Python's `split()`. */
  predicate IsShort(text: string) {
    |Text.Words(text)| <= 10
  }

  datatype Scores = Scores(pd: nat, kpd: nat, klq: nat)

  /** The two weight sums of `score_comment` on a string, before the irrelevance test. */
  function RawScores(text: string, stance: string, f: Families): (r: (nat, nat))
    ensures r.0 <= 17 && r.1 <= 10 && r.0 != 1 && r.1 != 1
  {
    var agree := IsShort(text) && f.agreement(text);
    var pd := (if f.govNeg(text) then 5 else 0) + (if f.ideologyNeg(text) then 7 else 0)
              + (if f.antiPos(text) then 3 else 0) + (if agree && stance == "POST_ANTI" then 2 else 0);
    var proximity := if |f.antiTarget(text)| > 0 && |f.negWord(text)| > 0
                     then (if MinDistance(f.antiTarget(text), f.negWord(text)) <= 20 then 5 else 2) else 0;
    var kpd := proximity + (if f.govPos(text) then 3 else 0) + (if agree && stance == "POST_PRO" then 2 else 0);
    (pd, kpd)
  }

  /** `score_comment`: a non-string scores KHONG_LIEN_QUAN 1 and nothing else;
      a string whose two sums are both at most 1 does too; otherwise the sums
      are PHAN_DONG and KHONG_PHAN_DONG and KHONG_LIEN_QUAN gets 0. */
  function CommentScores(text: Option<string>, stance: string, f: Families): (r: Scores)
    ensures r == Scores(0, 0, 1) || (r.klq == 0 && (r.pd >= 2 || r.kpd >= 2))
    ensures text.None? ==> r == Scores(0, 0, 1)
  {
    match text
    case None => Scores(0, 0, 1)
    case Some(t) =>
      var (pd, kpd) := RawScores(t, stance, f);
      if pd <= 1 && kpd <= 1 then Scores(0, 0, 1) else Scores(pd, kpd, 0)
  }

  /** Some weighted rule of `score_comment` fires on the text. */
  predicate AnyRuleFires(text: string, stance: string, f: Families) {
    f.govNeg(text) || f.ideologyNeg(text) || f.antiPos(text) || f.govPos(text)
    || (|f.antiTarget(text)| > 0 && |f.negWord(text)| > 0)
    || (IsShort(text) && f.agreement(text) && (stance == "POST_ANTI" || stance == "POST_PRO"))
  }

  /** Every weight is at least 2, so a string scores as irrelevant exactly when no rule fires. */
  lemma IrrelevantIffNoRule(text: string, stance: string, f: Families)
    ensures CommentScores(Some(text), stance, f).klq == 1 <==> !AnyRuleFires(text, stance, f)
  {
  }

  /** The proximity bonus: once both families match, KHONG_PHAN_DONG gets 5
      from them when some target starts within 20 characters of a derogatory
      word, and 2 otherwise. */
  lemma ProximityBonus(text: string, f: Families)
    requires |f.antiTarget(text)| > 0 && |f.negWord(text)| > 0
    requires !f.govPos(text) && !f.agreement(text)
    ensures var xs, ys := f.antiTarget(text), f.negWord(text);
            RawScores(text, "POST_NEUTRAL", f).1
            == if exists i, j :: 0 <= i < |xs| && 0 <= j < |ys| && Dist(xs[i], ys[j]) <= 20 then 5 else 2
  {
    MinDistanceWithin(f.antiTarget(text), f.negWord(text), 20);
  }

  /** `score_comment` as written, accumulating the two sums. */
  method ScoreComment(text: Option<string>, stance: string, f: Families) returns (scores: Scores)
    ensures scores == CommentScores(text, stance, f)
  {
    if text.None? {
      return Scores(0, 0, 1);
    }
    var t := text.value;
    var pd, kpd := 0, 0;
    if f.govNeg(t) {
      pd := pd + 5;
    }
    if |f.antiTarget(t)| > 0 && |f.negWord(t)| > 0 {
      var dist := ProximityDistance(f.antiTarget(t), f.negWord(t));
      if dist <= 20 {
        kpd := kpd + 5;
      } else {
        kpd := kpd + 2;
      }
    }
    assert kpd == if |f.antiTarget(t)| > 0 && |f.negWord(t)| > 0
                  then (if MinDistance(f.antiTarget(t), f.negWord(t)) <= 20 then 5 else 2) else 0;
    if f.ideologyNeg(t) {
      pd := pd + 7;
    }
    if f.govPos(t) {
      kpd := kpd + 3;
    }
    if f.antiPos(t) {
      pd := pd + 3;
    }
    assert pd == (if f.govNeg(t) then 5 else 0) + (if f.ideologyNeg(t) then 7 else 0) + (if f.antiPos(t) then 3 else 0);
    ghost var pd0, kpd0 := pd, kpd;
    ghost var agree := IsShort(t) && f.agreement(t);
    if IsShort(t) {
      if stance == "POST_ANTI" && f.agreement(t) {
        pd := pd + 2;
      } else if stance == "POST_PRO" && f.agreement(t) {
        kpd := kpd + 2;
      }
    }
    assert pd == pd0 + (if agree && stance == "POST_ANTI" then 2 else 0);
    assert kpd == kpd0 + (if agree && stance == "POST_PRO" then 2 else 0);
    assert (pd, kpd) == RawScores(t, stance, f);
    if pd <= 1 && kpd <= 1 {
      scores := Scores(0, 0, 1);
    } else {
      scores := Scores(pd, kpd, 0);
    }
  }

  // ---------------------------------------------------------------------
  // The second stage

  /** `max(scores.values())` and `max(scores.items(), key=...)[0]`: the top
      score and the first class, in the order PHAN_DONG, KHONG_PHAN_DONG,
      KHONG_LIEN_QUAN, that reaches it. */
  function Top(s: Scores): (r: (nat, Label))
    ensures r.0 >= s.pd && r.0 >= s.kpd && r.0 >= s.klq
    ensures r.1 == PhanDong ==> r.0 == s.pd
    ensures r.1 == KhongPhanDong ==> r.0 == s.kpd && s.pd < s.kpd
    ensures r.1 == KhongLienQuan ==> r.0 == s.klq && s.pd < s.klq && s.kpd < s.klq
  {
    if s.pd >= s.kpd && s.pd >= s.klq then (s.pd, PhanDong)
    else if s.kpd >= s.klq then (s.kpd, KhongPhanDong)
    else (s.klq, KhongLienQuan)
  }

  /** The label the second stage leaves on a row: the top class when its score is at least 5 and differs. */
  function Rescored(current: Label, s: Scores): Label {
    var (top, cls) := Top(s);
    if top >= 5 && current != cls then cls else current
  }

  /** The ambiguity test: a top score below 2 on a comment not labelled KHONG_LIEN_QUAN. */
  predicate Ambiguous(current: Label, s: Scores) {
    Top(s).0 < 2 && current != KhongLienQuan
  }

  /** A comment is ambiguous exactly when it scores as irrelevant (no rule
      fired, or it is not a string) while its label says otherwise. */
  lemma AmbiguousIffUnscored(current: Label, text: Option<string>, stance: string, f: Families)
    ensures var s := CommentScores(text, stance, f);
            Ambiguous(current, s) <==> s == Scores(0, 0, 1) && current != KhongLienQuan
  {
  }

  /** A score-based override never produces KHONG_LIEN_QUAN: that class scores at most 1. */
  lemma RescoredNeverIrrelevant(current: Label, s: Scores)
    requires s == Scores(0, 0, 1) || s.klq == 0
    ensures Rescored(current, s) == current || Rescored(current, s) != KhongLienQuan
  {
  }

  /** `second_stage_classification` over the first `n` rows: the labels and the rows it flags as ambiguous. */
  function SecondStage(labels: map<int, Label>, batch: seq<nat>, n: nat, texts: seq<Option<string>>,
                       stance: string, f: Families): (r: (map<int, Label>, set<nat>))
    requires n <= |batch| && forall i :: 0 <= i < |batch| ==> batch[i] < |texts|
    ensures r.0.Keys == labels.Keys
    ensures forall k :: k in labels && r.0[k] != labels[k] ==> r.0[k] != KhongLienQuan
    ensures forall p :: p in r.1 ==> p in labels && p in batch[..n]
    ensures forall p :: p in r.1 ==> p < |texts| && CommentScores(texts[p], stance, f) == Scores(0, 0, 1)
  {
    if n == 0 then (labels, {})
    else
      var prev := SecondStage(labels, batch, n - 1, texts, stance, f);
      var p := batch[n - 1];
      assert batch[..n] == batch[..n - 1] + [p];
      if p !in prev.0 then prev
      else
        var current := prev.0[p];
        var s := CommentScores(texts[p], stance, f);
        var top := Top(s);
        AmbiguousIffUnscored(current, texts[p], stance, f);
        (if top.0 >= 5 && current != top.1 then prev.0[p := top.1] else prev.0,
         if Ambiguous(current, s) then prev.1 + {p} else prev.1)
  }

  /** Row by row, over distinct positions: a labelled row of the batch ends
      with its rescored label and is flagged exactly when ambiguous; every
      other label is kept. */
  lemma {:induction false} SecondStageAt(labels: map<int, Label>, batch: seq<nat>, n: nat, texts: seq<Option<string>>,
                                         stance: string, f: Families, k: nat)
    requires n <= |batch| && forall i :: 0 <= i < |batch| ==> batch[i] < |texts|
    requires Frames.Distinct(batch) && k in labels
    ensures var r := SecondStage(labels, batch, n, texts, stance, f);
            k in batch[..n] ==> k < |texts| && var s := CommentScores(texts[k], stance, f);
                                r.0[k] == Rescored(labels[k], s) && (k in r.1 <==> Ambiguous(labels[k], s))
    ensures var r := SecondStage(labels, batch, n, texts, stance, f);
            k !in batch[..n] ==> r.0[k] == labels[k] && k !in r.1
  {
    if n > 0 {
      SecondStageAt(labels, batch, n - 1, texts, stance, f, k);
      assert batch[..n] == batch[..n - 1] + [batch[n - 1]];
      if k == batch[n - 1] {
        Frames.DistinctBefore(batch, n);
      }
    }
  }

  /** `second_stage_classification` as written: `ambiguous` collects the rows it marks. */
  method SecondStageClassification(batch: seq<nat>, raw: map<int, Label>, texts: seq<Option<string>>,
                                   stance: string, f: Families)
    returns (labels: map<int, Label>, ambiguous: set<nat>)
    requires forall i :: 0 <= i < |batch| ==> batch[i] < |texts|
    ensures (labels, ambiguous) == SecondStage(raw, batch, |batch|, texts, stance, f)
  {
    labels, ambiguous := raw, {};
    var i := 0;
    while i < |batch|
      invariant i <= |batch| && (labels, ambiguous) == SecondStage(raw, batch, i, texts, stance, f)
    {
      var p := batch[i];
      i := i + 1;
      if p !in labels {
        continue;
      }
      var current := labels[p];
      var scores := ScoreComment(texts[p], stance, f);
      var (maxScore, maxClass) := Top(scores);
      if maxScore >= 5 && current != maxClass {
        labels := labels[p := maxClass];
      }
      if maxScore < 2 && current != KhongLienQuan {
        ambiguous := ambiguous + {p};
      }
    }
  }

  // ---------------------------------------------------------------------
  // The override rules

  /** The label the four rules of `apply_enhanced_override_rules` leave, all
      tested against the label on entry: the last rule whose guard holds
      decides. Rule 1 turns an irrelevant comment with a target and a
      derogatory word into KHONG_PHAN_DONG, rule 2 does the same to a
      PHAN_DONG one without a government-criticism word, rule 3 turns an
      ideological attack into PHAN_DONG, rule 4 a negated target into
      KHONG_PHAN_DONG. */
  function RuleOutcome(current: Label, text: string, f: Families): (r: Label)
    ensures r == current || r != KhongLienQuan
  {
    var targeted := |f.antiTarget(text)| > 0 && |f.negWord(text)| > 0;
    if current != KhongPhanDong && f.negation(text) then KhongPhanDong
    else if current != PhanDong && f.ideologyNeg(text) then PhanDong
    else if current == PhanDong && targeted && !f.govNeg(text) then KhongPhanDong
    else if current == KhongLienQuan && targeted then KhongPhanDong
    else current
  }

  /** `apply_enhanced_override_rules` over the first `n` rows: rows without a label or without a string are skipped. */
  function EnhancedOverrides(labels: map<int, Label>, batch: seq<nat>, n: nat, texts: seq<Option<string>>,
                             f: Families): (r: map<int, Label>)
    requires n <= |batch| && forall i :: 0 <= i < |batch| ==> batch[i] < |texts|
    ensures r.Keys == labels.Keys
    ensures forall k :: k in labels && r[k] != labels[k] ==> r[k] != KhongLienQuan
  {
    if n == 0 then labels
    else
      var prev := EnhancedOverrides(labels, batch, n - 1, texts, f);
      var p := batch[n - 1];
      if p !in prev || texts[p].None? then prev
      else prev[p := RuleOutcome(prev[p], texts[p].value, f)]
  }

  /** Row by row, over distinct positions: a labelled string row of the batch
      ends with the rules' outcome on its label; every other label is kept. */
  lemma {:induction false} EnhancedOverridesAt(labels: map<int, Label>, batch: seq<nat>, n: nat,
                                               texts: seq<Option<string>>, f: Families, k: nat)
    requires n <= |batch| && forall i :: 0 <= i < |batch| ==> batch[i] < |texts|
    requires Frames.Distinct(batch) && k in labels
    ensures var r := EnhancedOverrides(labels, batch, n, texts, f);
            r[k] == if k in batch[..n] && texts[k].Some? then RuleOutcome(labels[k], texts[k].value, f) else labels[k]
  {
    if n > 0 {
      EnhancedOverridesAt(labels, batch, n - 1, texts, f, k);
      assert batch[..n] == batch[..n - 1] + [batch[n - 1]];
      if k == batch[n - 1] {
        Frames.DistinctBefore(batch, n);
      }
    }
  }

  /** `apply_enhanced_override_rules` as written: the rules assign in turn. */
  method ApplyEnhancedOverrideRules(labels: map<int, Label>, batch: seq<nat>, texts: seq<Option<string>>, f: Families)
    returns (updated: map<int, Label>)
    requires forall i :: 0 <= i < |batch| ==> batch[i] < |texts|
    ensures updated == EnhancedOverrides(labels, batch, |batch|, texts, f)
  {
    updated := labels;
    var i := 0;
    while i < |batch|
      invariant i <= |batch| && updated == EnhancedOverrides(labels, batch, i, texts, f)
    {
      var p := batch[i];
      i := i + 1;
      if p !in updated || texts[p].None? {
        continue;
      }
      var text := texts[p].value;
      var current := updated[p];
      var outcome := current;
      if current == KhongLienQuan && |f.antiTarget(text)| > 0 && |f.negWord(text)| > 0 {
        outcome := KhongPhanDong;
      }
      if current == PhanDong && |f.antiTarget(text)| > 0 && |f.negWord(text)| > 0 && !f.govNeg(text) {
        outcome := KhongPhanDong;
      }
      if current != PhanDong && f.ideologyNeg(text) {
        outcome := PhanDong;
      }
      if current != KhongPhanDong && f.negation(text) {
        outcome := KhongPhanDong;
      }
      updated := updated[p := outcome];
    }
  }

  // ---------------------------------------------------------------------
  // One batch

  /** The labels one batch of `run_enhanced_labeling_pipeline` writes and
      the rows its second stage marks ambiguous: the reply read as CSV, the
      second stage, the override rules, then the missing-id fill. */
  function BatchResult(csvText: string, batch: seq<nat>, texts: seq<Option<string>>, stance: string,
                       f: Families): (r: (map<int, Label>, set<nat>))
    requires forall i :: 0 <= i < |batch| ==> batch[i] < |texts|
    ensures forall i :: 0 <= i < |batch| ==> batch[i] in r.0
    ensures forall k :: k in r.0 ==> k in ParsedCsv(csvText) || k in batch
  {
    var second := SecondStage(ParsedCsv(csvText), batch, |batch|, texts, stance, f);
    assert batch[..|batch|] == batch;
    (FillMissing(EnhancedOverrides(second.0, batch, |batch|, texts, f), batch), second.1)
  }

  /** What the stage order means for a row of the batch: a row the reply does
      not name is KHONG_LIEN_QUAN and never ambiguous; a named row gets its
      reply label rescored, then, if its comment is a string, the override
      rules on top. */
  lemma BatchResultAt(csvText: string, batch: seq<nat>, texts: seq<Option<string>>, stance: string,
                      f: Families, p: nat)
    requires forall i :: 0 <= i < |batch| ==> batch[i] < |texts|
    requires Frames.Distinct(batch) && p in batch
    ensures var r := BatchResult(csvText, batch, texts, stance, f);
            var raw := ParsedCsv(csvText);
            var s := CommentScores(texts[p], stance, f);
            (p !in raw ==> r.0[p] == KhongLienQuan && p !in r.1)
            && (p in raw ==> var second := Rescored(raw[p], s);
                             r.0[p] == (if texts[p].Some? then RuleOutcome(second, texts[p].value, f) else second)
                             && (p in r.1 <==> Ambiguous(raw[p], s)))
  {
    var raw := ParsedCsv(csvText);
    assert batch[..|batch|] == batch;
    if p in raw {
      SecondStageAt(raw, batch, |batch|, texts, stance, f, p);
      var second := SecondStage(raw, batch, |batch|, texts, stance, f);
      EnhancedOverridesAt(second.0, batch, |batch|, texts, f, p);
    }
  }

  /** `for idx, label in labels.items(): df.loc[idx, "label"] = label`: an id
      that is not yet a row adds one. */
  method WriteLabels(column: map<int, string>, labels: map<int, Label>) returns (r: map<int, string>)
    ensures forall k :: k in r <==> k in column || k in labels
    ensures forall k :: k in r ==> r[k] == if k in labels then labels[k].Name() else column[k]
    ensures r == Write(column, labels)
  {
    r := column;
    var rest := labels.Keys;
    while rest != {}
      invariant rest <= labels.Keys
      invariant forall k :: k in r <==> k in column || (k in labels && k !in rest)
      invariant forall k :: k in r ==> r[k] == if k in labels && k !in rest then labels[k].Name() else column[k]
      decreases |rest|
    {
      var k := Frames.Pick(rest);
      r := r[k := labels[k].Name()];
      rest := rest - {k};
    }
    WriteIs(column, labels, r);
  }

  /** A map with the keys and the cells `Write` describes is `Write`'s. */
  lemma WriteIs(column: map<int, string>, labels: map<int, Label>, r: map<int, string>)
    requires forall k :: k in r <==> k in column || k in labels
    requires forall k :: k in r ==> r[k] == if k in labels then labels[k].Name() else column[k]
    ensures r == Write(column, labels)
  {
    var w := Write(column, labels);
    assert forall k :: k in r <==> k in w;
    assert r.Keys == w.Keys;
    assert forall k :: k in r ==> r[k] == w[k];
  }

  /** `df.loc[idx, "label"] = label` for every labelled id of one batch: an id
      that is not yet a row adds one. */
  function Write(column: map<int, string>, labels: map<int, Label>): (r: map<int, string>)
    ensures forall k :: k in r <==> k in column || k in labels
  {
    map k | k in column.Keys + labels.Keys :: if k in labels then labels[k].Name() else column[k]
  }

  /** The missing-id fill as written: a loop over the batch ids without a label. */
  method FillMissingIds(labels: map<int, Label>, batch: seq<int>) returns (r: map<int, Label>)
    ensures r == FillMissing(labels, batch)
  {
    r := labels;
    var ids: set<int> := set k | k in batch;
    var missing := ids - labels.Keys;
    while missing != {}
      invariant forall k :: k in missing ==> k in batch && k !in labels
      invariant forall k :: k in r <==> k in labels || (k in batch && k !in missing)
      invariant forall k :: k in labels ==> r[k] == labels[k]
      invariant forall k :: k in r && k !in labels ==> r[k] == KhongLienQuan
      decreases |missing|
    {
      var k := Frames.Pick(missing);
      r := r[k := KhongLienQuan];
      missing := missing - {k};
    }
    FillMissingIs(labels, batch, r);
  }

  /** The fill over integer ids is determined by its three properties. */
  lemma FillMissingIs(labels: map<int, Label>, rows: seq<int>, r: map<int, Label>)
    requires forall k :: k in r <==> k in labels || k in rows
    requires forall k :: k in labels ==> r[k] == labels[k]
    requires forall k :: k in rows && k !in labels ==> r[k] == KhongLienQuan
    ensures r == FillMissing(labels, rows)
  {
    var expected := FillMissing(labels, rows);
    assert forall k :: k in r <==> k in expected;
    assert forall k :: k in r ==> r[k] == expected[k];
  }

  /** Every row of `rows` scores as irrelevant: the rows the second stage may flag. */
  predicate AllUnscored(rows: set<nat>, texts: seq<Option<string>>, stance: string, f: Families) {
    forall p :: p in rows ==> p < |texts| && CommentScores(texts[p], stance, f) == Scores(0, 0, 1)
  }

  lemma AllUnscoredUnion(a: set<nat>, b: set<nat>, texts: seq<Option<string>>, stance: string, f: Families)
    requires AllUnscored(a, texts, stance, f) && AllUnscored(b, texts, stance, f)
    ensures AllUnscored(a + b, texts, stance, f)
  {
  }

  /** One batch as written: the call, `parse_csv`, the second stage, the
      override rules, the missing-id fill, and the write-back of every label.
      The run crashes, writing nothing, when a comment of the batch is not a
      string. */
  method LabelEnhancedBatch(column: map<int, string>, batch: seq<nat>, texts: seq<Option<string>>, stance: string,
                            reply: nat -> Option<string>, f: Families)
    returns (r: map<int, string>, ambiguous: set<nat>, crashed: bool)
    requires forall i :: 0 <= i < |batch| ==> batch[i] < |texts|
    ensures crashed <==> !AllStrings(batch, texts)
    ensures !crashed ==>
              var result := BatchResult(FirstAnswer(reply, 0, 3).GetOr(""), batch, texts, stance, f);
              r == Write(column, result.0) && ambiguous == result.1
  {
    var prompted := LabelCommentsEnhanced(batch, texts, reply);
    if prompted.None? {
      return column, {}, true;
    }
    crashed := false;
    var raw := ParseCsv(prompted.value);
    var labels;
    labels, ambiguous := SecondStageClassification(batch, raw, texts, stance, f);
    labels := ApplyEnhancedOverrideRules(labels, batch, texts, f);
    labels := FillMissingIds(labels, batch);
    assert batch[..|batch|] == batch;
    r := WriteLabels(column, labels);
  }

  // ---------------------------------------------------------------------
  // The column the batches write

  /** The label column after the batches whose results are `rs`, written in order. */
  function Written(column: map<int, string>, rs: seq<(map<int, Label>, set<nat>)>): map<int, string>
    decreases |rs|
  {
    if rs == [] then column else Write(Written(column, rs[..|rs| - 1]), rs[|rs| - 1].0)
  }

  /** Each cell after a write is a label name or the cell as it was. */
  lemma WriteCells(column: map<int, string>, labels: map<int, Label>, k: int)
    requires k in Write(column, labels)
    ensures FromName(Write(column, labels)[k]).Some? || (k in column && k !in labels && Write(column, labels)[k] == column[k])
  {
    if k in labels {
      FromNameName(labels[k]);
    }
  }

  /** The rows the second stage flagged in the batches whose results are `rs`. */
  function Flagged(rs: seq<(map<int, Label>, set<nat>)>): set<nat>
    decreases |rs|
  {
    if rs == [] then {} else Flagged(rs[..|rs| - 1]) + rs[|rs| - 1].1
  }

  /** One more batch written. */
  lemma WrittenSnoc(column: map<int, string>, rs: seq<(map<int, Label>, set<nat>)>, x: (map<int, Label>, set<nat>))
    ensures Written(column, rs + [x]) == Write(Written(column, rs), x.0)
    ensures Flagged(rs + [x]) == Flagged(rs) + x.1
  {
    assert (rs + [x])[..|rs|] == rs;
  }

  /** The column and the flags after batch `b` of `rs`, from those before it. */
  lemma WrittenStep(column: map<int, string>, rs: seq<(map<int, Label>, set<nat>)>, b: nat,
                    r: map<int, string>, flagged: set<nat>, x: (map<int, Label>, set<nat>))
    requires b < |rs| && rs[b] == x
    requires r == Written(column, rs[..b]) && flagged == Flagged(rs[..b])
    ensures Write(r, x.0) == Written(column, rs[..b + 1]) && flagged + x.1 == Flagged(rs[..b + 1])
  {
    Frames.PrefixNext(rs, b);
    WrittenSnoc(column, rs[..b], x);
  }

  /** Writing two runs of batches is writing the first, then the second over it. */
  lemma {:induction false} WrittenAppend(column: map<int, string>, rs: seq<(map<int, Label>, set<nat>)>,
                                         more: seq<(map<int, Label>, set<nat>)>)
    ensures Written(column, rs + more) == Written(Written(column, rs), more)
    ensures Flagged(rs + more) == Flagged(rs) + Flagged(more)
    decreases |more|
  {
    if more == [] {
      assert rs + more == rs;
    } else {
      var init, last := more[..|more| - 1], more[|more| - 1];
      assert more == init + [last];
      assert rs + more == (rs + init) + [last];
      WrittenAppend(column, rs, init);
      WrittenSnoc(column, rs + init, last);
      WrittenSnoc(Written(column, rs), init, last);
    }
  }

  /** The column and the flags after the batches `after`, which are `before`
      and then `more`, from those after `before`. */
  lemma WrittenAppendStep(column: map<int, string>, before: seq<(map<int, Label>, set<nat>)>,
                          more: seq<(map<int, Label>, set<nat>)>, after: seq<(map<int, Label>, set<nat>)>,
                          r: map<int, string>, flagged: set<nat>)
    requires after == before + more && r == Written(column, before) && flagged == Flagged(before)
    ensures Written(r, more) == Written(column, after) && flagged + Flagged(more) == Flagged(after)
    ensures |after| == |before| + |more|
  {
    WrittenAppend(column, before, more);
  }

  /** A cell is the name of its label in the last batch that labels it. */
  lemma {:induction false} WrittenLast(column: map<int, string>, rs: seq<(map<int, Label>, set<nat>)>, b: nat, k: int)
    requires b < |rs| && k in rs[b].0
    requires forall c :: b < c < |rs| ==> k !in rs[c].0
    ensures k in Written(column, rs) && Written(column, rs)[k] == rs[b].0[k].Name()
    decreases |rs|
  {
    if b < |rs| - 1 {
      var init := rs[..|rs| - 1];
      assert forall c :: b < c < |init| ==> init[c] == rs[c];
      WrittenLast(column, init, b, k);
    }
  }

  /** A cell no batch labels keeps its value, and no cell appears that no batch labels. */
  lemma {:induction false} WrittenKept(column: map<int, string>, rs: seq<(map<int, Label>, set<nat>)>, k: int)
    requires forall c :: 0 <= c < |rs| ==> k !in rs[c].0
    ensures k in Written(column, rs) <==> k in column
    ensures k in column ==> Written(column, rs)[k] == column[k]
    decreases |rs|
  {
    if rs != [] {
      var init := rs[..|rs| - 1];
      assert forall c :: 0 <= c < |init| ==> init[c] == rs[c];
      WrittenKept(column, init, k);
    }
  }

  /** The written column keeps every old cell's key, and each cell is a label
      name or the old cell. */
  lemma {:induction false} WrittenCells(column: map<int, string>, rs: seq<(map<int, Label>, set<nat>)>)
    ensures forall k :: k in column ==> k in Written(column, rs)
    ensures forall k :: k in Written(column, rs) ==>
              FromName(Written(column, rs)[k]).Some? || (k in column && Written(column, rs)[k] == column[k])
    decreases |rs|
  {
    if rs != [] {
      var prior := Written(column, rs[..|rs| - 1]);
      WrittenCells(column, rs[..|rs| - 1]);
      forall k | k in Written(column, rs)
        ensures FromName(Written(column, rs)[k]).Some? || (k in column && Written(column, rs)[k] == column[k])
      {
        WriteCells(prior, rs[|rs| - 1].0, k);
      }
    }
  }

  /** A cell some batch labels ends as a label name. */
  lemma {:induction false} WrittenNamed(column: map<int, string>, rs: seq<(map<int, Label>, set<nat>)>, b: nat, k: int)
    requires b < |rs| && k in rs[b].0
    ensures k in Written(column, rs) && FromName(Written(column, rs)[k]).Some?
    decreases |rs|
  {
    var prior := Written(column, rs[..|rs| - 1]);
    if b == |rs| - 1 {
      FromNameName(rs[b].0[k]);
    } else {
      assert rs[..|rs| - 1][b] == rs[b];
      WrittenNamed(column, rs[..|rs| - 1], b, k);
      WriteCells(prior, rs[|rs| - 1].0, k);
    }
  }

  /** A row is flagged iff some batch flagged it. */
  lemma {:induction false} FlaggedAt(rs: seq<(map<int, Label>, set<nat>)>, p: nat)
    ensures p in Flagged(rs) <==> exists c :: 0 <= c < |rs| && p in rs[c].1
    decreases |rs|
  {
    if rs != [] {
      var init := rs[..|rs| - 1];
      assert forall c :: 0 <= c < |init| ==> init[c] == rs[c];
      FlaggedAt(init, p);
      if p in Flagged(rs) && p !in rs[|rs| - 1].1 {
        var c :| 0 <= c < |init| && p in init[c].1;
        assert p in rs[c].1;
      }
    }
  }

  /** `range(0, len(rows), 35)` has this many starts. */
  function BatchCount(rows: seq<nat>): (n: nat)
    ensures |rows| <= 35 * n < |rows| + 35
  {
    (|rows| + 34) / 35
  }

  /** `rows[35 * b : 35 * b + 35]`, the rows of batch `b`. */
  function BatchRows(rows: seq<nat>, b: nat): (r: seq<nat>)
    requires b < BatchCount(rows)
    ensures forall i :: 0 <= i < |r| ==> r[i] in rows
  {
    rows[35 * b .. if 35 * b + 35 <= |rows| then 35 * b + 35 else |rows|]
  }

  /** Row `i` of a post lies in batch `i / 35`. */
  lemma BatchOf(rows: seq<nat>, i: nat)
    requires i < |rows|
    ensures i / 35 < BatchCount(rows) && rows[i] in BatchRows(rows, i / 35)
  {
    var b := i / 35;
    assert BatchRows(rows, b)[i - 35 * b] == rows[i];
  }

  /** The result of batch `b` of a post's rows, answered by call `calls + b`. */
  function BatchAt(rows: seq<nat>, texts: seq<Option<string>>, stance: string, calls: nat,
                   reply: nat -> nat -> Option<string>, f: Families, b: nat): (map<int, Label>, set<nat>)
    requires forall i :: 0 <= i < |rows| ==> rows[i] < |texts|
    requires b < BatchCount(rows)
  {
    BatchResult(FirstAnswer(reply(calls + b), 0, 3).GetOr(""), BatchRows(rows, b), texts, stance, f)
  }

  /** The results of all of a post's batches, in order. */
  function Results(rows: seq<nat>, texts: seq<Option<string>>, stance: string, calls: nat,
                   reply: nat -> nat -> Option<string>, f: Families): (r: seq<(map<int, Label>, set<nat>)>)
    requires forall i :: 0 <= i < |rows| ==> rows[i] < |texts|
    ensures |r| == BatchCount(rows)
  {
    seq(BatchCount(rows), b requires 0 <= b < BatchCount(rows) => BatchAt(rows, texts, stance, calls, reply, f, b))
  }

  /** Batch `b`'s result is the batch result of its rows and its reply. */
  lemma BatchAtUnfold(rows: seq<nat>, texts: seq<Option<string>>, stance: string, calls: nat,
                      reply: nat -> nat -> Option<string>, f: Families, b: nat)
    requires forall i :: 0 <= i < |rows| ==> rows[i] < |texts|
    requires b < BatchCount(rows)
    ensures forall i :: 0 <= i < |BatchRows(rows, b)| ==> BatchRows(rows, b)[i] < |texts|
    ensures BatchAt(rows, texts, stance, calls, reply, f, b)
            == BatchResult(FirstAnswer(reply(calls + b), 0, 3).GetOr(""), BatchRows(rows, b), texts, stance, f)
  {
  }

  /** The rows a batch flags are rows of the batch that score as irrelevant. */
  lemma BatchFlags(csvText: string, batch: seq<nat>, texts: seq<Option<string>>, stance: string, f: Families)
    requires forall i :: 0 <= i < |batch| ==> batch[i] < |texts|
    ensures forall p :: p in BatchResult(csvText, batch, texts, stance, f).1 ==> p in batch
    ensures AllUnscored(BatchResult(csvText, batch, texts, stance, f).1, texts, stance, f)
  {
    assert batch[..|batch|] == batch;
  }

  /** Batch `b` of a post keeps its result. */
  lemma ResultsAt(rows: seq<nat>, texts: seq<Option<string>>, stance: string, calls: nat,
                  reply: nat -> nat -> Option<string>, f: Families, b: nat)
    requires forall i :: 0 <= i < |rows| ==> rows[i] < |texts|
    requires b < BatchCount(rows)
    ensures Results(rows, texts, stance, calls, reply, f)[b] == BatchAt(rows, texts, stance, calls, reply, f, b)
  {
  }

  /** The results of the batches of the first `g` distinct posts, in the order
      the loop runs them, the count of batches before a post being its first call. */
  function PostsResults(posts: seq<Option<string>>, texts: seq<Option<string>>, stanceOf: string -> string,
                        reply: nat -> nat -> Option<string>, f: Families, groups: seq<Option<string>>, g: nat)
    : seq<(map<int, Label>, set<nat>)>
    requires |texts| == |posts| && g <= |groups|
    decreases g
  {
    if g == 0 then []
    else
      var before := PostsResults(posts, texts, stanceOf, reply, f, groups, g - 1);
      if groups[g - 1].None? then before
      else before + Results(PostRows(posts, groups[g - 1]), texts, stanceOf(groups[g - 1].value), |before|, reply, f)
  }

  /** The results of every batch of `run_enhanced_labeling_pipeline`. */
  function PipelineResults(posts: seq<Option<string>>, comments: seq<Option<string>>, stanceOf: string -> string,
                           reply: nat -> nat -> Option<string>, f: Families): seq<(map<int, Label>, set<nat>)>
    requires |comments| == |posts|
  {
    var groups := Frames.Unique(posts);
    PostsResults(posts, LowerCells(comments), stanceOf, reply, f, groups, |groups|)
  }

  // ---------------------------------------------------------------------
  // The pipeline

  /** The comments of one post, batch by batch of 35, each batch answered by
      `reply(calls)` for the running batch count `calls`: the column is the
      post's batch results written in order. */
  method LabelPostGroup(column: map<int, string>, rows: seq<nat>, texts: seq<Option<string>>, stance: string,
                        calls: nat, reply: nat -> nat -> Option<string>, f: Families)
    returns (r: map<int, string>, ambiguous: set<nat>, callsAfter: nat, crashed: bool)
    requires forall i :: 0 <= i < |rows| ==> rows[i] < |texts|
    ensures crashed <==> !AllStrings(rows, texts)
    ensures !crashed ==> callsAfter == calls + BatchCount(rows)
    ensures !crashed ==> r == Written(column, Results(rows, texts, stance, calls, reply, f))
    ensures !crashed ==> ambiguous == Flagged(Results(rows, texts, stance, calls, reply, f))
  {
    r, ambiguous := column, {};
    GroupStart(column, rows, texts, stance, calls, reply, f);
    var b := 0;
    while b < BatchCount(rows)
      invariant b <= BatchCount(rows)
      invariant GroupProgress(column, rows, texts, stance, calls, reply, f, b, r, ambiguous)
    {
      var next, flagged, bad := LabelBatchOf(column, r, ambiguous, rows, texts, stance, calls, reply, f, b);
      if bad {
        return r, ambiguous, calls + b, true;
      }
      r, ambiguous, b := next, flagged, b + 1;
    }
    GroupEnd(column, rows, texts, stance, calls, reply, f, r, ambiguous);
    callsAfter, crashed := calls + b, false;
  }

  /** After the first `b` batches of a post: the column and the flags are
      those the first `b` batch results leave, and the comments of those
      batches are strings. */
  predicate GroupProgress(column: map<int, string>, rows: seq<nat>, texts: seq<Option<string>>, stance: string,
                          calls: nat, reply: nat -> nat -> Option<string>, f: Families, b: nat,
                          r: map<int, string>, ambiguous: set<nat>)
    requires forall i :: 0 <= i < |rows| ==> rows[i] < |texts|
    requires b <= BatchCount(rows)
  {
    var rs := Results(rows, texts, stance, calls, reply, f)[..b];
    r == Written(column, rs) && ambiguous == Flagged(rs) && StringsBelow(rows, texts, b)
  }

  /** Before the first batch nothing is written or flagged. */
  lemma GroupStart(column: map<int, string>, rows: seq<nat>, texts: seq<Option<string>>, stance: string,
                   calls: nat, reply: nat -> nat -> Option<string>, f: Families)
    requires forall i :: 0 <= i < |rows| ==> rows[i] < |texts|
    ensures GroupProgress(column, rows, texts, stance, calls, reply, f, 0, column, {})
  {
    assert Results(rows, texts, stance, calls, reply, f)[..0] == [];
  }

  /** After the last batch the column and the flags are those of all the
      post's results, and every comment of the post is a string. */
  lemma GroupEnd(column: map<int, string>, rows: seq<nat>, texts: seq<Option<string>>, stance: string,
                 calls: nat, reply: nat -> nat -> Option<string>, f: Families,
                 r: map<int, string>, ambiguous: set<nat>)
    requires forall i :: 0 <= i < |rows| ==> rows[i] < |texts|
    requires GroupProgress(column, rows, texts, stance, calls, reply, f, BatchCount(rows), r, ambiguous)
    ensures AllStrings(rows, texts)
    ensures r == Written(column, Results(rows, texts, stance, calls, reply, f))
    ensures ambiguous == Flagged(Results(rows, texts, stance, calls, reply, f))
  {
    var rs := Results(rows, texts, stance, calls, reply, f);
    assert rs[..BatchCount(rows)] == rs;
    AllBatchStrings(rows, texts);
  }

  /** The body of the batch loop for batch `b` of a post: its rows, answered
      by call `calls + b`, written over the column `soFar` the first `b`
      batches left; the run crashes on a comment of the batch that is not a
      string. */
  method LabelBatchOf(column: map<int, string>, soFar: map<int, string>, flagged: set<nat>, rows: seq<nat>,
                      texts: seq<Option<string>>, stance: string, calls: nat,
                      reply: nat -> nat -> Option<string>, f: Families, b: nat)
    returns (r: map<int, string>, ambiguous: set<nat>, crashed: bool)
    requires forall i :: 0 <= i < |rows| ==> rows[i] < |texts|
    requires b < BatchCount(rows)
    requires GroupProgress(column, rows, texts, stance, calls, reply, f, b, soFar, flagged)
    ensures crashed ==> !AllStrings(rows, texts)
    ensures !crashed ==> GroupProgress(column, rows, texts, stance, calls, reply, f, b + 1, r, ambiguous)
  {
    BatchAtUnfold(rows, texts, stance, calls, reply, f, b);
    var next, flags;
    next, flags, crashed := LabelEnhancedBatch(soFar, BatchRows(rows, b), texts, stance, reply(calls + b), f);
    if crashed {
      BatchCrash(rows, texts, b);
      return soFar, flagged, true;
    }
    BatchStrings(rows, texts, b);
    ResultsAt(rows, texts, stance, calls, reply, f, b);
    WrittenStep(column, Results(rows, texts, stance, calls, reply, f), b, soFar, flagged,
                BatchAt(rows, texts, stance, calls, reply, f, b));
    r, ambiguous := next, flagged + flags;
  }

  /** The comments of the rows of the first `b` batches are strings. */
  predicate StringsBelow(rows: seq<nat>, texts: seq<Option<string>>, b: nat) {
    forall i :: 0 <= i < |rows| && i < 35 * b ==> rows[i] < |texts| && texts[rows[i]].Some?
  }

  /** A batch whose comments are strings extends the rows known to be strings. */
  lemma BatchStrings(rows: seq<nat>, texts: seq<Option<string>>, b: nat)
    requires b < BatchCount(rows) && StringsBelow(rows, texts, b) && AllStrings(BatchRows(rows, b), texts)
    ensures StringsBelow(rows, texts, b + 1)
  {
    forall i | 0 <= i < |rows| && 35 * b <= i < 35 * (b + 1)
      ensures rows[i] < |texts| && texts[rows[i]].Some?
    {
      assert BatchRows(rows, b)[i - 35 * b] == rows[i];
    }
  }

  /** A comment of a batch that is not a string is one of the post's. */
  lemma BatchCrash(rows: seq<nat>, texts: seq<Option<string>>, b: nat)
    requires b < BatchCount(rows) && !AllStrings(BatchRows(rows, b), texts)
    ensures !AllStrings(rows, texts)
  {
    var i :| 0 <= i < |BatchRows(rows, b)| && !(BatchRows(rows, b)[i] < |texts| && texts[BatchRows(rows, b)[i]].Some?);
    assert BatchRows(rows, b)[i] == rows[35 * b + i];
  }

  /** Once every batch has run, every comment of the post is a string. */
  lemma AllBatchStrings(rows: seq<nat>, texts: seq<Option<string>>)
    requires StringsBelow(rows, texts, BatchCount(rows))
    ensures AllStrings(rows, texts)
  {
  }

  /** What a post's batches leave when they turn `column` into `col` and flag
      `flagged`, for a post whose rows are `rows`: every old cell is still
      there and is a label name or as it was, every row of the post is named,
      and the flagged rows are rows of the post that score as irrelevant. */
  predicate GroupFacts(column: map<int, string>, rows: seq<nat>, col: map<int, string>, flagged: set<nat>,
                       texts: seq<Option<string>>, stance: string, f: Families) {
    (forall k :: k in column ==> k in col)
    && (forall k :: k in col ==> FromName(col[k]).Some? || (k in column && col[k] == column[k]))
    && (forall p :: p in rows ==> p in col && FromName(col[p]).Some?)
    && (forall p :: p in flagged ==> p in rows)
    && AllUnscored(flagged, texts, stance, f)
  }

  /** A post's batches keep `GroupFacts`. */
  lemma {:induction false} PostGroupFacts(column: map<int, string>, rows: seq<nat>, texts: seq<Option<string>>, stance: string,
                                          calls: nat, reply: nat -> nat -> Option<string>, f: Families)
    requires forall i :: 0 <= i < |rows| ==> rows[i] < |texts|
    ensures var rs := Results(rows, texts, stance, calls, reply, f);
            GroupFacts(column, rows, Written(column, rs), Flagged(rs), texts, stance, f)
  {
    var rs := Results(rows, texts, stance, calls, reply, f);
    WrittenCells(column, rs);
    forall p | p in rows
      ensures p in Written(column, rs) && FromName(Written(column, rs)[p]).Some?
    {
      var i :| 0 <= i < |rows| && rows[i] == p;
      RowNamed(rows, texts, stance, calls, reply, f, i);
      var b :| 0 <= b < |rs| && p in rs[b].0;
      WrittenNamed(column, rs, b, p);
    }
    forall p | p in Flagged(rs)
      ensures p in rows && p < |texts| && CommentScores(texts[p], stance, f) == Scores(0, 0, 1)
    {
      FlaggedAt(rs, p);
      var c :| 0 <= c < |rs| && p in rs[c].1;
      RowFlagged(rows, texts, stance, calls, reply, f, c, p);
    }
  }

  /** Row `i` of a post lies in a batch whose result labels it. */
  lemma RowNamed(rows: seq<nat>, texts: seq<Option<string>>, stance: string,
                 calls: nat, reply: nat -> nat -> Option<string>, f: Families, i: nat)
    requires forall i :: 0 <= i < |rows| ==> rows[i] < |texts|
    requires i < |rows|
    ensures exists b :: 0 <= b < |Results(rows, texts, stance, calls, reply, f)|
                        && rows[i] in Results(rows, texts, stance, calls, reply, f)[b].0
  {
    BatchOf(rows, i);
    ResultsAt(rows, texts, stance, calls, reply, f, i / 35);
    BatchAtUnfold(rows, texts, stance, calls, reply, f, i / 35);
  }

  /** A row that batch `c` of a post flags is a row of the post that scores as irrelevant. */
  lemma RowFlagged(rows: seq<nat>, texts: seq<Option<string>>, stance: string,
                   calls: nat, reply: nat -> nat -> Option<string>, f: Families, c: nat, p: nat)
    requires forall i :: 0 <= i < |rows| ==> rows[i] < |texts|
    requires c < |Results(rows, texts, stance, calls, reply, f)| && p in Results(rows, texts, stance, calls, reply, f)[c].1
    ensures p in rows && p < |texts| && CommentScores(texts[p], stance, f) == Scores(0, 0, 1)
  {
    ResultsAt(rows, texts, stance, calls, reply, f, c);
    BatchAtUnfold(rows, texts, stance, calls, reply, f, c);
    BatchFlags(FirstAnswer(reply(calls + c), 0, 3).GetOr(""), BatchRows(rows, c), texts, stance, f);
  }

  /** The lowercased comment cells: None where the cell is not a string. */
  function LowerCells(comments: seq<Option<string>>): (r: seq<Option<string>>)
    ensures |r| == |comments|
    ensures forall i :: 0 <= i < |r| ==> r[i].Some? == comments[i].Some?
  {
    seq(|comments|, i requires 0 <= i < |comments| =>
      if comments[i].Some? then Some(Text.Lower(comments[i].value)) else None)
  }

  /** The row positions of one post: none for NaN, which equals nothing. */
  function PostRows(posts: seq<Option<string>>, post: Option<string>): (r: seq<nat>)
    ensures forall p: nat :: p in r <==> p < |posts| && post.Some? && posts[p] == post
  {
    if post.None? then [] else Frames.PositionsOfExact(posts, post, |posts|); Frames.PositionsOf(posts, post, |posts|)
  }

  /** `df["label"] = ""` over the positions `0 .. n - 1`. */
  function EmptyColumn(n: nat): (r: map<int, string>)
    ensures forall k :: k in r <==> 0 <= k < n
    ensures forall k :: k in r ==> r[k] == ""
  {
    if n == 0 then map[] else EmptyColumn(n - 1)[n - 1 := ""]
  }

  /** Every flagged row belongs to a post and scores as irrelevant under its post's stance. */
  predicate FlaggedUnscored(flagged: set<nat>, posts: seq<Option<string>>, texts: seq<Option<string>>,
                            stanceOf: string -> string, f: Families) {
    forall p :: p in flagged ==> p < |posts| && posts[p].Some? && p < |texts|
                                 && CommentScores(texts[p], stanceOf(posts[p].value), f) == Scores(0, 0, 1)
  }

  /** The flags of one post's rows keep the property. */
  lemma FlaggedUnscoredGroup(flagged: set<nat>, amb: set<nat>, rows: seq<nat>, posts: seq<Option<string>>,
                             texts: seq<Option<string>>, stanceOf: string -> string, f: Families, post: string)
    requires FlaggedUnscored(flagged, posts, texts, stanceOf, f)
    requires forall p :: p in amb ==> p in rows
    requires forall p: nat :: p in rows ==> p < |posts| && posts[p] == Some(post)
    requires AllUnscored(amb, texts, stanceOf(post), f)
    ensures FlaggedUnscored(flagged + amb, posts, texts, stanceOf, f)
  {
  }

  /** The batches of the first `g` posts in order: a post with a value adds its
      own batches, a missing one none. */
  lemma PostsResultsNext(posts: seq<Option<string>>, texts: seq<Option<string>>, stanceOf: string -> string,
                         reply: nat -> nat -> Option<string>, f: Families, groups: seq<Option<string>>, g: nat)
    requires |texts| == |posts| && g < |groups|
    ensures groups[g].None? ==> PostsResults(posts, texts, stanceOf, reply, f, groups, g + 1)
                                == PostsResults(posts, texts, stanceOf, reply, f, groups, g)
    ensures groups[g].Some? ==>
              var before := PostsResults(posts, texts, stanceOf, reply, f, groups, g);
              PostsResults(posts, texts, stanceOf, reply, f, groups, g + 1)
              == before + Results(PostRows(posts, groups[g]), texts, stanceOf(groups[g].value), |before|, reply, f)
  {
  }

  /** What the column `col` and the flags `flagged` hold once the posts
      `done` are through: every row has a cell, each cell is "" or a label
      name, every row of those posts is named, and every flagged row scores as
      irrelevant under its post's stance. */
  predicate ColumnFacts(posts: seq<Option<string>>, texts: seq<Option<string>>, stanceOf: string -> string,
                        f: Families, done: seq<Option<string>>, col: map<int, string>, flagged: set<nat>) {
    (forall p :: 0 <= p < |posts| ==> p in col)
    && (forall k :: k in col ==> IsLabelCell(col[k]))
    && (forall p :: 0 <= p < |posts| && posts[p].Some? && posts[p] in done ==> FromName(col[p]).Some?)
    && FlaggedUnscored(flagged, posts, texts, stanceOf, f)
  }

  /** One more post through: its batches, which keep `GroupFacts`, keep `ColumnFacts`. */
  lemma ColumnFactsStep(posts: seq<Option<string>>, texts: seq<Option<string>>, stanceOf: string -> string, f: Families,
                        done: seq<Option<string>>, post: string, rows: seq<nat>,
                        col: map<int, string>, flagged: set<nat>, next: map<int, string>, amb: set<nat>)
    requires forall p: nat :: p in rows ==> p < |posts| && posts[p] == Some(post)
    requires forall p: nat :: p < |posts| && posts[p] == Some(post) ==> p in rows
    requires ColumnFacts(posts, texts, stanceOf, f, done, col, flagged)
    requires GroupFacts(col, rows, next, amb, texts, stanceOf(post), f)
    ensures ColumnFacts(posts, texts, stanceOf, f, done + [Some(post)], next, flagged + amb)
  {
    FlaggedUnscoredGroup(flagged, amb, rows, posts, texts, stanceOf, f, post);
  }

  /** A post without a value adds no batch, and no row is named by it. */
  lemma ColumnFactsSkip(posts: seq<Option<string>>, texts: seq<Option<string>>, stanceOf: string -> string, f: Families,
                        done: seq<Option<string>>, col: map<int, string>, flagged: set<nat>)
    requires ColumnFacts(posts, texts, stanceOf, f, done, col, flagged)
    ensures ColumnFacts(posts, texts, stanceOf, f, done + [None], col, flagged)
  {
  }

  /** What the batches of the first `g` posts leave in the column that starts empty. */
  predicate ColumnAfter(posts: seq<Option<string>>, texts: seq<Option<string>>, stanceOf: string -> string,
                        reply: nat -> nat -> Option<string>, f: Families, groups: seq<Option<string>>, g: nat)
    requires |texts| == |posts| && g <= |groups|
  {
    var rs := PostsResults(posts, texts, stanceOf, reply, f, groups, g);
    ColumnFacts(posts, texts, stanceOf, f, groups[..g], Written(EmptyColumn(|posts|), rs), Flagged(rs))
  }

  /** No post through and no batch: every cell is "" and nothing is flagged. */
  lemma ColumnFactsEmpty(posts: seq<Option<string>>, texts: seq<Option<string>>, stanceOf: string -> string,
                         reply: nat -> nat -> Option<string>, f: Families, groups: seq<Option<string>>)
    requires |texts| == |posts|
    ensures ColumnAfter(posts, texts, stanceOf, reply, f, groups, 0)
  {
    assert groups[..0] == [];
    assert Written(EmptyColumn(|posts|), []) == EmptyColumn(|posts|);
  }

  /** Post `g - 1` through keeps `ColumnFacts`. */
  lemma ColumnFactsNext(posts: seq<Option<string>>, texts: seq<Option<string>>, stanceOf: string -> string,
                        reply: nat -> nat -> Option<string>, f: Families, groups: seq<Option<string>>, g: nat)
    requires |texts| == |posts| && 0 < g <= |groups|
    requires ColumnAfter(posts, texts, stanceOf, reply, f, groups, g - 1)
    ensures ColumnAfter(posts, texts, stanceOf, reply, f, groups, g)
  {
    var empty := EmptyColumn(|posts|);
    var before := PostsResults(posts, texts, stanceOf, reply, f, groups, g - 1);
    PostsResultsNext(posts, texts, stanceOf, reply, f, groups, g - 1);
    Frames.PrefixNext(groups, g - 1);
    if groups[g - 1].Some? {
      var post := groups[g - 1].value;
      var rows := PostRows(posts, groups[g - 1]);
      var prior := Written(empty, before);
      var more := Results(rows, texts, stanceOf(post), |before|, reply, f);
      PostGroupFacts(prior, rows, texts, stanceOf(post), |before|, reply, f);
      WrittenAppend(empty, before, more);
      ColumnFactsStep(posts, texts, stanceOf, f, groups[..g - 1], post, rows, prior, Flagged(before),
                      Written(prior, more), Flagged(more));
    } else {
      ColumnFactsSkip(posts, texts, stanceOf, f, groups[..g - 1], Written(empty, before), Flagged(before));
    }
  }

  /** The batches of the first `g` posts keep `ColumnFacts`. */
  lemma {:induction false} AllPostsFacts(posts: seq<Option<string>>, texts: seq<Option<string>>, stanceOf: string -> string,
                                         reply: nat -> nat -> Option<string>, f: Families, groups: seq<Option<string>>, g: nat)
    requires |texts| == |posts| && g <= |groups|
    ensures ColumnAfter(posts, texts, stanceOf, reply, f, groups, g)
    decreases g
  {
    if g == 0 {
      ColumnFactsEmpty(posts, texts, stanceOf, reply, f, groups);
    } else {
      AllPostsFacts(posts, texts, stanceOf, reply, f, groups, g - 1);
      ColumnFactsNext(posts, texts, stanceOf, reply, f, groups, g);
    }
  }

  /** The body of the loop over the distinct posts, for post `g`: NaN selects
      no row, so it has no batch; any other post's batches are written over
      the column, their calls counted on from the batches before, and the run
      crashes when a comment of the post is not a string. */
  method LabelNextPost(posts: seq<Option<string>>, texts: seq<Option<string>>, stanceOf: string -> string,
                       reply: nat -> nat -> Option<string>, f: Families, groups: seq<Option<string>>, g: nat,
                       labelCol: map<int, string>, flagged: set<nat>, calls: nat)
    returns (labelCol': map<int, string>, flagged': set<nat>, calls': nat, crashed: bool)
    requires |texts| == |posts| && g < |groups|
    requires PostsProgress(posts, texts, stanceOf, reply, f, groups, g, labelCol, flagged, calls)
    ensures crashed <==> groups[g].Some? && !AllStrings(PostRows(posts, groups[g]), texts)
    ensures crashed ==> !StringComments(posts, texts)
    ensures !crashed ==> PostsProgress(posts, texts, stanceOf, reply, f, groups, g + 1, labelCol', flagged', calls')
  {
    PostsResultsNext(posts, texts, stanceOf, reply, f, groups, g);
    if groups[g].None? {
      StringsDoneNext(posts, texts, groups, g);
      return labelCol, flagged, calls, false;
    }
    var post := groups[g].value;
    var rows := PostRows(posts, groups[g]);
    ghost var before := PostsResults(posts, texts, stanceOf, reply, f, groups, g);
    ghost var more := Results(rows, texts, stanceOf(post), calls, reply, f);
    assert more == Results(PostRows(posts, groups[g]), texts, stanceOf(groups[g].value), |before|, reply, f);
    WrittenAppendStep(EmptyColumn(|posts|), before, more, PostsResults(posts, texts, stanceOf, reply, f, groups, g + 1),
                      labelCol, flagged);
    var amb;
    labelCol', amb, calls', crashed := LabelPostGroup(labelCol, rows, texts, stanceOf(post), calls, reply, f);
    flagged' := flagged + amb;
    if crashed {
      PostCrash(posts, texts, groups[g]);
    } else {
      StringsDoneNext(posts, texts, groups, g);
    }
  }

  /** After the first `g` distinct posts: the call count is their batch count,
      the column and the flags are those their batch results leave, and their
      rows have string comments. */
  predicate PostsProgress(posts: seq<Option<string>>, texts: seq<Option<string>>, stanceOf: string -> string,
                          reply: nat -> nat -> Option<string>, f: Families, groups: seq<Option<string>>, g: nat,
                          labelCol: map<int, string>, flagged: set<nat>, calls: nat)
    requires |texts| == |posts| && g <= |groups|
  {
    var rs := PostsResults(posts, texts, stanceOf, reply, f, groups, g);
    calls == |rs| && labelCol == Written(EmptyColumn(|posts|), rs) && flagged == Flagged(rs)
    && StringsDone(posts, texts, groups[..g])
  }

  /** Before the first post nothing is written, flagged or called. */
  lemma PostsStart(posts: seq<Option<string>>, texts: seq<Option<string>>, stanceOf: string -> string,
                   reply: nat -> nat -> Option<string>, f: Families, groups: seq<Option<string>>)
    requires |texts| == |posts|
    ensures PostsProgress(posts, texts, stanceOf, reply, f, groups, 0, EmptyColumn(|posts|), {}, 0)
  {
  }

  /** After every distinct post: what `LabelAllPosts` promises of a run that
      did not crash. */
  lemma PostsEnd(posts: seq<Option<string>>, texts: seq<Option<string>>, stanceOf: string -> string,
                 reply: nat -> nat -> Option<string>, f: Families, labelCol: map<int, string>, flagged: set<nat>, calls: nat)
    requires |texts| == |posts|
    requires PostsProgress(posts, texts, stanceOf, reply, f, Frames.Unique(posts), |Frames.Unique(posts)|,
                           labelCol, flagged, calls)
    ensures StringComments(posts, texts)
    ensures var groups := Frames.Unique(posts);
            labelCol == Written(EmptyColumn(|posts|), PostsResults(posts, texts, stanceOf, reply, f, groups, |groups|))
            && flagged == Flagged(PostsResults(posts, texts, stanceOf, reply, f, groups, |groups|))
    ensures forall p :: 0 <= p < |posts| ==> p in labelCol
    ensures forall k :: k in labelCol ==> IsLabelCell(labelCol[k])
    ensures forall p :: 0 <= p < |posts| && posts[p].Some? ==> FromName(labelCol[p]).Some?
    ensures FlaggedUnscored(flagged, posts, texts, stanceOf, f)
  {
    var groups := Frames.Unique(posts);
    assert groups[..|groups|] == groups;
    StringsDoneAll(posts, texts);
    AllPostsFacts(posts, texts, stanceOf, reply, f, groups, |groups|);
  }

  /** Every row with a post has a string comment. */
  predicate StringComments(posts: seq<Option<string>>, texts: seq<Option<string>>) {
    forall p :: 0 <= p < |posts| && posts[p].Some? ==> p < |texts| && texts[p].Some?
  }

  /** The rows of the posts `done` have string comments. */
  predicate StringsDone(posts: seq<Option<string>>, texts: seq<Option<string>>, done: seq<Option<string>>) {
    forall p :: 0 <= p < |posts| && posts[p].Some? && posts[p] in done ==> p < |texts| && texts[p].Some?
  }

  /** Post `g` through without a crash: its rows have string comments too. */
  lemma StringsDoneNext(posts: seq<Option<string>>, texts: seq<Option<string>>, groups: seq<Option<string>>, g: nat)
    requires g < |groups| && StringsDone(posts, texts, groups[..g])
    requires groups[g].Some? ==> AllStrings(PostRows(posts, groups[g]), texts)
    ensures StringsDone(posts, texts, groups[..g + 1])
  {
    Frames.PrefixNext(groups, g);
    forall p | 0 <= p < |posts| && posts[p].Some? && posts[p] in groups[..g + 1]
      ensures p < |texts| && texts[p].Some?
    {
      if posts[p] !in groups[..g] {
        var rows := PostRows(posts, groups[g]);
        assert p in rows;
        var i :| 0 <= i < |rows| && rows[i] == p;
      }
    }
  }

  /** A post whose rows hold a comment that is not a string breaks `StringComments`. */
  lemma PostCrash(posts: seq<Option<string>>, texts: seq<Option<string>>, post: Option<string>)
    requires post.Some? && !AllStrings(PostRows(posts, post), texts)
    ensures !StringComments(posts, texts)
  {
    var rows := PostRows(posts, post);
    var i :| 0 <= i < |rows| && !(rows[i] < |texts| && texts[rows[i]].Some?);
    assert rows[i] in rows;
  }

  /** Once every distinct post is through, every row with a post has a string comment. */
  lemma StringsDoneAll(posts: seq<Option<string>>, texts: seq<Option<string>>)
    requires StringsDone(posts, texts, Frames.Unique(posts))
    ensures StringComments(posts, texts)
  {
    forall p | 0 <= p < |posts| && posts[p].Some?
      ensures p < |texts| && texts[p].Some?
    {
      assert posts[p] in Frames.Unique(posts);
    }
  }

  /** One pass over the distinct posts, the stance of each given by
      `stanceOf` (the post analysis with its sarcasm flip), writing only the
      label column. The run crashes, at the first batch holding one, exactly
      when some row with a post has a comment that is not a string; otherwise
      the column is the one that starts empty with every post's batch results
      written over it in order. NaN selects no row, so its post has no batch. */
  method LabelAllPosts(posts: seq<Option<string>>, texts: seq<Option<string>>, stanceOf: string -> string,
                       reply: nat -> nat -> Option<string>, f: Families)
    returns (labelCol: map<int, string>, flagged: set<nat>, crashed: bool)
    requires |texts| == |posts|
    ensures crashed <==> !StringComments(posts, texts)
    ensures !crashed ==>
              var groups := Frames.Unique(posts);
              labelCol == Written(EmptyColumn(|posts|), PostsResults(posts, texts, stanceOf, reply, f, groups, |groups|))
              && flagged == Flagged(PostsResults(posts, texts, stanceOf, reply, f, groups, |groups|))
    ensures !crashed ==> forall p :: 0 <= p < |posts| ==> p in labelCol
    ensures !crashed ==> forall k :: k in labelCol ==> IsLabelCell(labelCol[k])
    ensures !crashed ==> forall p :: 0 <= p < |posts| && posts[p].Some? ==> FromName(labelCol[p]).Some?
    ensures !crashed ==> FlaggedUnscored(flagged, posts, texts, stanceOf, f)
  {
    var calls;
    labelCol, flagged, calls, crashed := PostsLoop(posts, texts, stanceOf, reply, f, Frames.Unique(posts));
    if !crashed {
      PostsEnd(posts, texts, stanceOf, reply, f, labelCol, flagged, calls);
    }
  }

  /** The loop of `LabelAllPosts` over the posts `groups` (the distinct
      posts), stopping at the first crash; without one it leaves the column,
      the flags and the call count of every post. */
  method PostsLoop(posts: seq<Option<string>>, texts: seq<Option<string>>, stanceOf: string -> string,
                   reply: nat -> nat -> Option<string>, f: Families, groups: seq<Option<string>>)
    returns (labelCol: map<int, string>, flagged: set<nat>, calls: nat, crashed: bool)
    requires |texts| == |posts|
    ensures crashed ==> !StringComments(posts, texts)
    ensures !crashed ==> PostsProgress(posts, texts, stanceOf, reply, f, groups, |groups|, labelCol, flagged, calls)
  {
    labelCol, flagged, calls, crashed := EmptyColumn(|posts|), {}, 0, false;
    PostsStart(posts, texts, stanceOf, reply, f, groups);
    var g := 0;
    while g < |groups|
      invariant g <= |groups|
      invariant PostsProgress(posts, texts, stanceOf, reply, f, groups, g, labelCol, flagged, calls)
    {
      var bad;
      labelCol, flagged, calls, bad := LabelNextPost(posts, texts, stanceOf, reply, f, groups, g, labelCol, flagged, calls);
      if bad {
        return labelCol, flagged, calls, true;
      }
      g := g + 1;
    }
  }

  /** A row's comment is a string exactly when its lowercased cell is one. */
  lemma StringCommentsLower(posts: seq<Option<string>>, comments: seq<Option<string>>)
    requires |comments| == |posts|
    ensures StringComments(posts, LowerCells(comments)) <==> StringComments(posts, comments)
  {
  }

  /** `run_enhanced_labeling_pipeline` as written: the label column starts
      empty and the ambiguity column at 0. The run raises, and saves nothing,
      exactly when some row with a post has a comment that is not a string;
      otherwise the label column ends as every batch's results written in
      order. The second stage writes its flags into a copy of the post's rows,
      so the returned ambiguity column stays 0 everywhere. */
  method RunEnhancedLabelingPipeline(posts: seq<Option<string>>, comments: seq<Option<string>>,
                                     stanceOf: string -> string, reply: nat -> nat -> Option<string>, f: Families)
    returns (labelCol: map<int, string>, ambiguous: seq<nat>, crashed: bool)
    requires |comments| == |posts|
    ensures crashed <==> !StringComments(posts, comments)
    ensures !crashed ==> labelCol == Written(EmptyColumn(|posts|), PipelineResults(posts, comments, stanceOf, reply, f))
    ensures !crashed ==> forall p :: 0 <= p < |posts| ==> p in labelCol
    ensures !crashed ==> forall k :: k in labelCol ==> IsLabelCell(labelCol[k])
    ensures !crashed ==> forall p :: 0 <= p < |posts| && posts[p].Some? ==> FromName(labelCol[p]).Some?
    ensures !crashed ==> |ambiguous| == |posts| && forall p :: 0 <= p < |posts| ==> ambiguous[p] == 0
  {
    ambiguous := seq(|posts|, _ => 0);
    var flagged;
    labelCol, flagged, crashed := LabelAllPosts(posts, LowerCells(comments), stanceOf, reply, f);
    StringCommentsLower(posts, comments);
  }

  /** The pipeline with the flags kept: the same crash and the same label
      column, and the ambiguity column is 1 exactly on the rows some batch's
      second stage flagged, each a row of a post whose comment scored as
      irrelevant under its post's stance, and 0 elsewhere. */
  method RunEnhancedLabelingPipelineWithFlags(posts: seq<Option<string>>, comments: seq<Option<string>>,
                                              stanceOf: string -> string, reply: nat -> nat -> Option<string>,
                                              f: Families)
    returns (labelCol: map<int, string>, ambiguous: seq<nat>, crashed: bool)
    requires |comments| == |posts|
    ensures crashed <==> !StringComments(posts, comments)
    ensures !crashed ==> labelCol == Written(EmptyColumn(|posts|), PipelineResults(posts, comments, stanceOf, reply, f))
    ensures !crashed ==> forall p :: 0 <= p < |posts| ==> p in labelCol
    ensures !crashed ==> forall k :: k in labelCol ==> IsLabelCell(labelCol[k])
    ensures !crashed ==> forall p :: 0 <= p < |posts| && posts[p].Some? ==> FromName(labelCol[p]).Some?
    ensures !crashed ==> |ambiguous| == |posts|
    ensures !crashed ==> forall p :: 0 <= p < |posts| ==>
              (ambiguous[p] == 1 <==> p in Flagged(PipelineResults(posts, comments, stanceOf, reply, f)))
              && (ambiguous[p] == 0 <==> p !in Flagged(PipelineResults(posts, comments, stanceOf, reply, f)))
    ensures !crashed ==> forall p :: p in Flagged(PipelineResults(posts, comments, stanceOf, reply, f)) ==> p < |posts|
    ensures !crashed ==> forall p :: 0 <= p < |posts| && ambiguous[p] == 1 ==>
              posts[p].Some? && CommentScores(LowerCells(comments)[p], stanceOf(posts[p].value), f) == Scores(0, 0, 1)
  {
    var texts := LowerCells(comments);
    var flagged;
    labelCol, flagged, crashed := LabelAllPosts(posts, texts, stanceOf, reply, f);
    StringCommentsLower(posts, comments);
    ambiguous := seq(|posts|, p => if p in flagged then 1 else 0);
  }

  /** The flags the as-written pipeline drops: a PHAN_DONG reply for a
      string comment on which no weighted rule fires is flagged by the second
      stage. */
  lemma SecondStageFlagsUnscored(t: string, f: Families)
    requires !AnyRuleFires(t, "POST_NEUTRAL", f)
    ensures SecondStage(map[0 := PhanDong], [0], 1, [Some(t)], "POST_NEUTRAL", f).1 == {0}
  {
    IrrelevantIffNoRule(t, "POST_NEUTRAL", f);
    var s := CommentScores(Some(t), "POST_NEUTRAL", f);
    assert s == Scores(0, 0, 1);
    assert Top(s).0 == 1;
    var prev := SecondStage(map[0 := PhanDong], [0], 0, [Some(t)], "POST_NEUTRAL", f);
    assert prev == (map[0 := PhanDong], {});
  }

  /** The keyword families that match nothing. */
  function Quiet(): (f: Families)
    ensures forall t :: !AnyRuleFires(t, "POST_NEUTRAL", f)
  {
    Families(_ => [], _ => [], _ => false, _ => false, _ => false, _ => false, _ => false, _ => false)
  }

  /** A concrete input: "xin chao cac ban" answered PHAN_DONG is flagged when
      no family matches it. */
  lemma SecondStageFlagsGreeting()
    ensures SecondStage(map[0 := PhanDong], [0], 1, [Some("xin chao cac ban")], "POST_NEUTRAL", Quiet()).1 == {0}
  {
    SecondStageFlagsUnscored("xin chao cac ban", Quiet());
  }
}
