/** The merge step: it reads the comparison text back into a post -> summary
    map, relabels the annotated sheet's columns and numeric labels, attaches
    each row's summary and keeps the columns of the final dataset in order. */
module MergeSummary {
  import opened Wrappers
  import Text
  import Frames
  import Comparison

  // ---------------------------------------------------------------------
  // Reading the comparison text back

  const OriginalMarker: string := "ORIGINAL:"
  const SummaryMarker: string := "SUMMARY:"

  predicate IsDash(c: char) { c == '-' }

  /** One match of the block pattern
      `POST (\d+):\s*-+\s*ORIGINAL:\s*(.*?)\s*SUMMARY:\s*(.*?)\s*={80}` (dot
      matching newlines): the post number's digits, the stretch between
      `ORIGINAL:` and `SUMMARY:`, the stretch between `SUMMARY:` and the rule,
      and where the match ends. The two groups the pattern captures are these
      stretches without the whitespace at their ends. */
  datatype Match = Match(number: string, original: string, summary: string, end: nat)

  /** One element of the block pattern after `POST `. */
  datatype Step =
    | Word(word: string)    // the literal `word`
    | Digits                // `(\d+)`, captured
    | Spaces                // `\s*`
    | DashRun               // `-+`
    | Upto(marker: string)  // `\s*(.*?)\s*` and then `marker`: the stretch before the marker, captured

  /** The block pattern after `POST `, element by element: the number, the
      dashes on their own line with `ORIGINAL:`, and the two lazy groups. */
  const NumberSteps: seq<Step> := [Digits, Word(":")]
  const DashSteps: seq<Step> := [Spaces, DashRun, Spaces, Word(OriginalMarker)]
  const GroupSteps: seq<Step> := [Upto(SummaryMarker), Upto(Comparison.Rule)]
  const Pattern: seq<Step> := NumberSteps + (DashSteps + GroupSteps)

  /** The length of the run of `ws` characters starting at `i`. */
  function RunFrom(text: string, i: nat, ws: char -> bool): (n: nat)
    requires i <= |text|
    ensures i + n <= |text|
    decreases |text| - i
  {
    if i < |text| && ws(text[i]) then 1 + RunFrom(text, i + 1, ws) else 0
  }

  /** A run of exactly `k` `ws` characters at `i`. */
  lemma {:induction false} RunExact(text: string, i: nat, k: nat, ws: char -> bool)
    requires i + k <= |text|
    requires forall x :: i <= x < i + k ==> ws(text[x])
    requires i + k < |text| ==> !ws(text[i + k])
    ensures RunFrom(text, i, ws) == k
    decreases k
  {
    if k > 0 {
      RunExact(text, i + 1, k - 1, ws);
    }
  }

  /** The pattern elements `steps` matched at `i` after the groups `caps`:
      all the groups and where the match ends. Every repetition is followed by
      a character it cannot take, so its greedy run is the only one that lets
      the pattern go on. A lazy group stops at the first marker after it: a
      later marker could only lengthen the group, and whatever follows the
      first marker also follows a later one. */
  function Run(text: string, steps: seq<Step>, i: nat, caps: seq<string>): (r: Option<(seq<string>, nat)>)
    requires i <= |text|
    ensures r.Some? ==> i <= r.value.1 <= |text|
    decreases |steps|, 1
  {
    if steps == [] then Some((caps, i)) else RunStep(text, steps[0], steps[1..], i, caps)
  }

  /** The element `step` matched at `i`, then the elements `rest`. */
  function RunStep(text: string, step: Step, rest: seq<Step>, i: nat, caps: seq<string>): (r: Option<(seq<string>, nat)>)
    requires i <= |text|
    ensures r.Some? ==> i <= r.value.1 <= |text|
    decreases |rest| + 1, 0
  {
    match step
    case Word(w) => if Text.OccursAt(text, w, i) then Run(text, rest, i + |w|, caps) else None
    case Digits =>
      var n := RunFrom(text, i, Text.IsAsciiDigit);
      if n == 0 then None else Run(text, rest, i + n, caps + [text[i..i + n]])
    case Spaces => Run(text, rest, i + RunFrom(text, i, Text.IsPySpace), caps)
    case DashRun =>
      var n := RunFrom(text, i, IsDash);
      if n == 0 then None else Run(text, rest, i + n, caps)
    case Upto(w) =>
      match Text.FindFrom(text, w, i)
      case None => None
      case Some(m) => Run(text, rest, m + |w|, caps + [text[i..m]])
  }

  /** The block pattern matched at `s`, with its three groups. */
  function MatchAt(pattern: seq<Step>, text: string, s: nat): (r: Option<Match>)
    ensures r.Some? ==> s < r.value.end <= |text|
  {
    if !Text.OccursAt(text, "POST ", s) then None
    else
      match Run(text, pattern, s + 5, [])
      case Some((caps, e)) => if |caps| == 3 then Some(Match(caps[0], caps[1], caps[2], e)) else None
      case None => None
  }

  /** The leftmost match at or after `p`, with where it starts. */
  function FirstMatch(pattern: seq<Step>, text: string, p: nat): (r: Option<(nat, Match)>)
    requires p <= |text|
    ensures r.Some? ==> p <= r.value.0 < r.value.1.end <= |text| && MatchAt(pattern, text, r.value.0) == Some(r.value.1)
    decreases |text| - p
  {
    match MatchAt(pattern, text, p)
    case Some(m) => Some((p, m))
    case None => if p == |text| then None else FirstMatch(pattern, text, p + 1)
  }

  /** `re.findall`: the successive non-overlapping matches from `p` on. */
  function FindAll(pattern: seq<Step>, text: string, p: nat): seq<Match>
    requires p <= |text|
    decreases |text| - p
  {
    match FirstMatch(pattern, text, p)
    case None => []
    case Some((_, m)) => [m] + FindAll(pattern, text, m.end)
  }


  /** A dictionary filled from pairs in order: a later pair for the same
      key overwrites the earlier one. */
  function Fill(ps: seq<(string, string)>): map<string, string>
  {
    if ps == [] then map[]
    else
      var last := ps[|ps| - 1];
      Fill(ps[..|ps| - 1])[last.0 := last.1]
  }

  /** The keys are the keys of the pairs, and each holds the value of its last pair. */
  lemma {:induction false} FillLastWins(ps: seq<(string, string)>)
    ensures forall k :: k in Fill(ps) <==> exists i :: 0 <= i < |ps| && ps[i].0 == k
    ensures forall i :: 0 <= i < |ps| && (forall j :: i < j < |ps| ==> ps[j].0 != ps[i].0) ==>
              Fill(ps)[ps[i].0] == ps[i].1
  {
    if ps != [] {
      var n := |ps| - 1;
      FillLastWins(ps[..n]);
      assert forall i :: 0 <= i < n ==> ps[..n][i] == ps[i];
      forall k | k in Fill(ps) ensures exists i :: 0 <= i < |ps| && ps[i].0 == k {
        if k != ps[n].0 {
          assert k in Fill(ps[..n]);
          var i :| 0 <= i < n && ps[..n][i].0 == k;
          assert ps[i].0 == k;
        }
      }
    }
  }

  /** What a match puts in the dictionary: its stripped original text and summary. */
  function Entry(m: Match): (string, string) {
    (Text.PyStrip(m.original), Text.PyStrip(m.summary))
  }

  /** The entries of the matches, in order. */
  function Entries(ms: seq<Match>): (r: seq<(string, string)>)
    ensures |r| == |ms|
  {
    if ms == [] then [] else Entries(ms[..|ms| - 1]) + [Entry(ms[|ms| - 1])]
  }

  lemma {:induction false} EntriesAt(ms: seq<Match>, i: nat)
    requires i < |ms|
    ensures Entries(ms)[i] == Entry(ms[i])
    decreases |ms|
  {
    if i < |ms| - 1 {
      EntriesAt(ms[..|ms| - 1], i);
    }
  }

  /** One more match, one more entry. */
  lemma EntriesNext(ms: seq<Match>, i: nat)
    requires i < |ms|
    ensures Entries(ms[..i + 1]) == Entries(ms[..i]) + [Entry(ms[i])]
  {
    assert ms[..i + 1][..i] == ms[..i];
  }

  /** The dictionary `extract_summaries_from_txt` builds from the matches. */
  function Collect(ms: seq<Match>): map<string, string> {
    Fill(Entries(ms))
  }

  /** The loop of `extract_summaries_from_txt`: each match's stripped
      original text and summary go into the dictionary, in order. */
  method CollectMatches(matches: seq<Match>) returns (summaries: map<string, string>)
    ensures summaries == Collect(matches)
  {
    summaries := map[];
    var i := 0;
    while i < |matches|
      invariant i <= |matches|
      invariant summaries == Fill(Entries(matches[..i]))
    {
      var m := matches[i];
      EntriesNext(matches, i);
      var original, summary := Text.PyStrip(m.original), Text.PyStrip(m.summary);
      summaries := summaries[original := summary];
      i := i + 1;
    }
    assert matches[..i] == matches;
  }

  /** `extract_summaries_from_txt` on the text already read. */
  method ExtractSummaries(content: string) returns (summaries: map<string, string>)
    ensures summaries == Collect(FindAll(Pattern, content, 0))
  {
    var matches := FindAll(Pattern, content, 0);
    summaries := CollectMatches(matches);
  }

  // ---------------------------------------------------------------------
  // The round trip with the writers

  /** Both halves of a stretch that equals `A + B`. */
  lemma Halves(s: string, p: nat, A: string, B: string)
    requires p + |A| + |B| <= |s| && s[p..p + |A| + |B|] == A + B
    ensures s[p..p + |A|] == A && s[p + |A|..p + |A| + |B|] == B
  {
    assert s[p..p + |A|] == s[p..p + |A| + |B|][..|A|];
    assert s[p + |A|..p + |A| + |B|] == s[p..p + |A| + |B|][|A|..];
  }

  /** Each position of a stretch that equals `W`. */
  lemma Positions(s: string, i: nat, W: string)
    requires i + |W| <= |s| && s[i..i + |W|] == W
    ensures forall q :: i <= q < i + |W| ==> s[q] == W[q - i]
  {
    forall q | i <= q < i + |W| ensures s[q] == W[q - i] {
      assert s[q] == s[i..i + |W|][q - i];
    }
  }

  /** Both parts of an occurrence of `A + B`. */
  lemma Split(s: string, i: nat, A: string, B: string)
    requires Text.OccursAt(s, A + B, i)
    ensures Text.OccursAt(s, A, i) && Text.OccursAt(s, B, i + |A|)
  {
    Halves(s, i, A, B);
  }

  /** A text on its own line and an empty line: what lies between two markers. */
  function Padded(body: string): string {
    "\n" + (body + "\n\n")
  }

  /** The pieces the writers' `"\n".join` lays out for the head of the block
      of post `n`: its title and the dashes, up to and including `ORIGINAL:`. */
  function HeadParts(n: nat): seq<string> {
    ["POST ", Text.NatToString(n), ":", "\n", Comparison.Dashes, "\n", OriginalMarker]
  }

  /** The pieces after the head: the post, `SUMMARY:`, the summary, the rule
      and the block's last newline. */
  function BodyParts(post: string, summary: string): seq<string> {
    ["\n", post, "\n\n", SummaryMarker, "\n", summary, "\n\n", Comparison.Rule, "\n"]
  }

  /** The pieces of one block. */
  function BlockParts(n: nat, post: string, summary: string): seq<string> {
    HeadParts(n) + BodyParts(post, summary)
  }

  /** One block as the writers' `"\n".join` lays it out. */
  function BlockText(n: nat, post: string, summary: string): string {
    Text.Concat(BlockParts(n, post, summary))
  }

  /** How long a block is. */
  function BlockLength(n: nat, post: string, summary: string): nat {
    |Text.NatToString(n)| + |post| + |summary| + 162
  }

  /** Concatenating a piece in front of others. */
  lemma ConcatCons(x: string, rest: seq<string>)
    ensures Text.Concat([x] + rest) == x + Text.Concat(rest)
  {
    assert ([x] + rest)[1..] == rest;
  }

  lemma {:induction false} ConcatAppend(a: seq<string>, b: seq<string>)
    ensures Text.Concat(a + b) == Text.Concat(a) + Text.Concat(b)
    decreases |a|
  {
    if a == [] {
      assert a + b == b;
    } else {
      assert (a + b)[1..] == a[1..] + b;
      ConcatAppend(a[1..], b);
    }
  }

  /** Concatenating the pieces of a padded text and what follows it. */
  lemma ConcatPadded(body: string, rest: seq<string>)
    ensures Text.Concat(["\n", body, "\n\n"] + rest) == Padded(body) + Text.Concat(rest)
  {
    assert ["\n", body, "\n\n"] + rest == ["\n"] + ([body] + (["\n\n"] + rest));
    ConcatCons("\n\n", rest);
    ConcatCons(body, ["\n\n"] + rest);
    ConcatCons("\n", [body] + (["\n\n"] + rest));
  }

  /** The head's pieces concatenated. */
  lemma ConcatHead(n: nat)
    ensures Text.Concat(HeadParts(n)) == "POST " + Text.NatToString(n) + ":\n" + Comparison.Dashes + "\n" + OriginalMarker
  {
    var N := Text.NatToString(n);
    var r1 := [Comparison.Dashes, "\n", OriginalMarker];
    assert HeadParts(n) == ["POST "] + ([N] + ([":"] + (["\n"] + r1)));
    assert r1 == [Comparison.Dashes] + (["\n"] + ([OriginalMarker] + []));
    ConcatCons(OriginalMarker, []);
    ConcatCons("\n", [OriginalMarker] + []);
    ConcatCons(Comparison.Dashes, ["\n"] + ([OriginalMarker] + []));
    ConcatCons("\n", r1);
    ConcatCons(":", ["\n"] + r1);
    ConcatCons(N, [":"] + (["\n"] + r1));
    ConcatCons("POST ", [N] + ([":"] + (["\n"] + r1)));
  }

  /** The body's pieces concatenated. */
  lemma ConcatBody(post: string, summary: string)
    ensures Text.Concat(BodyParts(post, summary)) == Padded(post) + SummaryMarker + Padded(summary) + Comparison.Rule + "\n"
  {
    var tail := [Comparison.Rule, "\n"];
    assert BodyParts(post, summary) == ["\n", post, "\n\n"] + ([SummaryMarker] + (["\n", summary, "\n\n"] + tail));
    assert tail == [Comparison.Rule] + (["\n"] + []);
    ConcatCons("\n", []);
    ConcatCons(Comparison.Rule, ["\n"] + []);
    ConcatPadded(summary, tail);
    ConcatCons(SummaryMarker, ["\n", summary, "\n\n"] + tail);
    ConcatPadded(post, [SummaryMarker] + (["\n", summary, "\n\n"] + tail));
  }

  /** A block is as long as `BlockLength` says. */
  lemma BlockTextLength(n: nat, post: string, summary: string)
    ensures |BlockText(n, post, summary)| == BlockLength(n, post, summary)
  {
    ConcatAppend(HeadParts(n), BodyParts(post, summary));
    ConcatHead(n);
    ConcatBody(post, summary);
  }

  /** Joining the parts from `k` on: the part at `k`, the separator, the rest. */
  lemma JoinStep(L: seq<string>, k: nat, sep: string)
    requires k + 1 < |L|
    ensures Text.Join(L[k..], sep) == L[k] + sep + Text.Join(L[k + 1..], sep)
  {
    assert L[k..][1..] == L[k + 1..];
  }

  /** The summary's lines joined, from the summary on. */
  lemma JoinSummaryLines(n: nat, post: string, summary: string)
    ensures Text.Join(Comparison.BlockLines(n, post, summary)[6..], "\n") == summary + "\n\n" + Comparison.Rule + "\n"
  {
    var L := Comparison.BlockLines(n, post, summary);
    assert L[9..] == [""];
    JoinStep(L, 8, "\n");
    JoinStep(L, 7, "\n");
    JoinStep(L, 6, "\n");
  }

  /** The post's lines joined, from the post on. */
  lemma JoinPostLines(n: nat, post: string, summary: string)
    ensures "\n" + Text.Join(Comparison.BlockLines(n, post, summary)[3..], "\n")
            == Padded(post) + SummaryMarker + Padded(summary) + Comparison.Rule + "\n"
  {
    var L := Comparison.BlockLines(n, post, summary);
    JoinSummaryLines(n, post, summary);
    var T2 := Padded(summary) + Comparison.Rule + "\n";
    assert "\n" + Text.Join(L[6..], "\n") == T2;
    JoinStep(L, 5, "\n");
    JoinStep(L, 4, "\n");
    JoinStep(L, 3, "\n");
    assert Text.Join(L[4..], "\n") == "\n" + SummaryMarker + T2;
  }

  /** The block's lines joined are the block's pieces concatenated. */
  lemma JoinBlock(n: nat, post: string, summary: string)
    ensures Text.Join(Comparison.BlockLines(n, post, summary), "\n") == BlockText(n, post, summary)
  {
    var L := Comparison.BlockLines(n, post, summary);
    JoinPostLines(n, post, summary);
    var T1 := Padded(post) + SummaryMarker + Padded(summary) + Comparison.Rule + "\n";
    JoinStep(L, 2, "\n");
    JoinStep(L, 1, "\n");
    JoinStep(L, 0, "\n");
    assert L[0..] == L;
    assert Text.Join(L[1..], "\n") == Comparison.Dashes + "\n" + OriginalMarker + T1;
    ConcatAppend(HeadParts(n), BodyParts(post, summary));
    ConcatHead(n);
    ConcatBody(post, summary);
  }

  // ---------------------------------------------------------------------
  // Where the pieces lie in a text

  /** The pieces lie one after the other from `p` on. */
  predicate Laid(s: string, p: nat, parts: seq<string>)
    decreases |parts|
  {
    if parts == [] then p <= |s|
    else Text.OccursAt(s, parts[0], p) && Laid(s, p + |parts[0]|, parts[1..])
  }

  /** The pieces of a text found at `p` lie there one after the other. */
  lemma {:induction false} LaidOf(s: string, p: nat, parts: seq<string>)
    requires Text.OccursAt(s, Text.Concat(parts), p)
    ensures Laid(s, p, parts)
    decreases |parts|
  {
    if parts != [] {
      Split(s, p, parts[0], Text.Concat(parts[1..]));
      LaidOf(s, p + |parts[0]|, parts[1..]);
    }
  }

  /** The first of the pieces, and where the others lie. */
  lemma LaidNext(s: string, p: nat, x: string, rest: seq<string>)
    requires Laid(s, p, [x] + rest)
    ensures Text.OccursAt(s, x, p) && Laid(s, p + |x|, rest)
  {
    assert ([x] + rest)[0] == x && ([x] + rest)[1..] == rest;
  }

  /** A single character found at `p`. */
  lemma CharAt(s: string, p: nat, c: char)
    requires Text.OccursAt(s, [c], p)
    ensures p < |s| && s[p] == c
  {
    assert s[p] == s[p..p + 1][0];
  }

  /** Three consecutive occurrences make up a padded text. */
  lemma PaddedSlice(s: string, i: nat, body: string, e: nat)
    requires e == i + |body| + 3 <= |s|
    requires Text.OccursAt(s, "\n", i) && Text.OccursAt(s, body, i + 1) && Text.OccursAt(s, "\n\n", i + 1 + |body|)
    ensures s[i..e] == Padded(body)
  {
    assert s[i..e] == s[i..i + 1] + s[i + 1..i + 1 + |body|] + s[i + 1 + |body|..e];
  }

  /** A padded text is laid out as a newline, the text and two newlines. */
  lemma PaddedAt(s: string, i: nat, body: string, rest: seq<string>, e: nat)
    requires Laid(s, i, ["\n", body, "\n\n"] + rest) && e == i + |body| + 3
    ensures e <= |s| && s[i] == '\n' && Text.OccursAt(s, body, i + 1)
    ensures s[i + 1 + |body|] == '\n' && s[i + 2 + |body|] == '\n'
    ensures s[i..e] == Padded(body)
    ensures Laid(s, e, rest)
  {
    var nl := i + 1 + |body|;
    assert ["\n", body, "\n\n"] + rest == ["\n"] + ([body] + (["\n\n"] + rest));
    LaidNext(s, i, "\n", [body] + (["\n\n"] + rest));
    LaidNext(s, i + 1, body, ["\n\n"] + rest);
    LaidNext(s, nl, "\n\n", rest);
    CharAt(s, i, '\n');
    Positions(s, nl, "\n\n");
    PaddedSlice(s, i, body, e);
  }

  /** After an opening newline, a text without `pat` and two newlines, the
      first `pat` is the one right after them. */
  lemma FirstAfterPadded(s: string, i: nat, body: string, pat: string)
    requires i + |body| + 3 <= |s| && s[i] == '\n' && Text.OccursAt(s, body, i + 1)
    requires s[i + 1 + |body|] == '\n' && s[i + 2 + |body|] == '\n'
    requires Text.OccursAt(s, pat, i + |body| + 3)
    requires !Text.Contains(body, pat) && |pat| > 0 && '\n' !in pat
    ensures Text.FindFrom(s, pat, i) == Some(i + |body| + 3)
  {
    var k, nl := i + |body| + 3, i + 1 + |body|;
    forall j | i <= j < k ensures !Text.OccursAt(s, pat, j) {
      if j == i {
        Text.NotAtForeign(s, pat, j, i);
      } else if j + |pat| <= nl {
        Text.NotWithin(s, pat, i + 1, body, j);
      } else {
        var q := if j <= nl then nl else j;
        Text.NotAtForeign(s, pat, j, q);
      }
    }
    Text.FindFromIs(s, pat, i, k);
  }

  // ---------------------------------------------------------------------
  // Matching a block

  // One element of the pattern at a time.

  lemma RunWord(s: string, steps: seq<Step>, i: nat, caps: seq<string>)
    requires i <= |s| && steps != [] && steps[0].Word? && Text.OccursAt(s, steps[0].word, i)
    ensures Run(s, steps, i, caps) == Run(s, steps[1..], i + |steps[0].word|, caps)
  {
  }

  lemma RunDigits(s: string, steps: seq<Step>, i: nat, caps: seq<string>, n: nat)
    requires i + n <= |s| && steps != [] && steps[0] == Digits && n > 0 && RunFrom(s, i, Text.IsAsciiDigit) == n
    ensures Run(s, steps, i, caps) == Run(s, steps[1..], i + n, caps + [s[i..i + n]])
  {
  }

  lemma RunSpaces(s: string, steps: seq<Step>, i: nat, caps: seq<string>, n: nat)
    requires i + n <= |s| && steps != [] && steps[0] == Spaces && RunFrom(s, i, Text.IsPySpace) == n
    ensures Run(s, steps, i, caps) == Run(s, steps[1..], i + n, caps)
  {
  }

  lemma RunDashes(s: string, steps: seq<Step>, i: nat, caps: seq<string>, n: nat)
    requires i + n <= |s| && steps != [] && steps[0] == DashRun && n > 0 && RunFrom(s, i, IsDash) == n
    ensures Run(s, steps, i, caps) == Run(s, steps[1..], i + n, caps)
  {
  }

  lemma RunUpto(s: string, steps: seq<Step>, i: nat, caps: seq<string>, m: nat)
    requires i <= |s| && steps != [] && steps[0].Upto? && Text.FindFrom(s, steps[0].marker, i) == Some(m)
    ensures m + |steps[0].marker| <= |s|
    ensures Run(s, steps, i, caps) == Run(s, steps[1..], m + |steps[0].marker|, caps + [s[i..m]])
  {
  }


  /** The two lazy groups, each closed by the first marker after it. */
  lemma RunTwo(s: string, a: nat, N: string, m1: string, m2: string, b: nat, c: nat)
    requires a <= |s| && Text.FindFrom(s, m1, a) == Some(b) && b + |m1| <= |s|
    requires Text.FindFrom(s, m2, b + |m1|) == Some(c)
    ensures Run(s, [Upto(m1), Upto(m2)], a, [N]) == Some(([N, s[a..b], s[b + |m1|..c]], c + |m2|))
  {
    var x, y := s[a..b], s[b + |m1|..c];
    PairCons(Upto(m1), Upto(m2));
    RunFirstUpto(s, a, m1, [Upto(m2)], [N], b);
    RunLastUpto(s, b + |m1|, m2, [N] + [x], c);
    ThreeCaps(N, x, y);
  }

  lemma ThreeCaps<T>(n: T, x: T, y: T)
    ensures [n] + [x] + [y] == [n, x, y]
  {
  }

  /** A lazy group closed by the first `m1` after it, then the elements `rest`. */
  lemma RunFirstUpto(s: string, a: nat, m1: string, rest: seq<Step>, caps: seq<string>, b: nat)
    requires a <= |s| && Text.FindFrom(s, m1, a) == Some(b)
    ensures b + |m1| <= |s|
    ensures Run(s, [Upto(m1)] + rest, a, caps) == Run(s, rest, b + |m1|, caps + [s[a..b]])
  {
    var steps := [Upto(m1)] + rest;
    assert steps[0] == Upto(m1) && steps[1..] == rest;
    RunUpto(s, steps, a, caps, b);
  }

  lemma PairCons<T>(p: T, q: T)
    ensures [p, q] == [p] + [q]
  {
  }

  /** A last lazy group, closed by the first `m2` after it. */
  lemma RunLastUpto(s: string, j: nat, m2: string, caps: seq<string>, c: nat)
    requires j <= |s| && Text.FindFrom(s, m2, j) == Some(c)
    ensures c + |m2| <= |s|
    ensures Run(s, [Upto(m2)], j, caps) == Some((caps + [s[j..c]], c + |m2|))
  {
    RunUpto(s, [Upto(m2)], j, caps, c);
    assert [Upto(m2)][1..] == [];
  }

  /** The rule is 80 characters long and holds no newline. */
  lemma RuleFacts()
    ensures |Comparison.Rule| == 80 && '\n' !in Comparison.Rule
  {
  }

  /** A number and its colon match the number's elements of the pattern. */
  lemma RunNumber(s: string, d: nat, N: string, rest: seq<Step>)
    requires Text.OccursAt(s, N, d) && Text.OccursAt(s, ":", d + |N|)
    requires N != [] && forall i :: 0 <= i < |N| ==> Text.IsAsciiDigit(N[i])
    ensures Run(s, NumberSteps + rest, d, []) == Run(s, rest, d + |N| + 1, [N])
  {
    var colonThen := [Word(":")] + rest;
    NumberStepsThen(rest);
    RunNumberDigits(s, d, N, colonThen);
    RunColon(s, d + |N|, rest, [N]);
  }

  /** The digits of `N` at `d`, followed by a colon, are one captured run. */
  lemma RunNumberDigits(s: string, d: nat, N: string, rest: seq<Step>)
    requires Text.OccursAt(s, N, d) && Text.OccursAt(s, ":", d + |N|)
    requires N != [] && forall i :: 0 <= i < |N| ==> Text.IsAsciiDigit(N[i])
    ensures Run(s, [Digits] + rest, d, []) == Run(s, rest, d + |N|, [N])
  {
    var steps := [Digits] + rest;
    assert steps[0] == Digits && steps[1..] == rest;
    Positions(s, d, N);
    CharAt(s, d + |N|, ':');
    RunExact(s, d, |N|, Text.IsAsciiDigit);
    RunDigits(s, steps, d, [], |N|);
    OneCap(s[d..d + |N|], N);
  }

  /** A colon at `j`, then the elements `rest`. */
  lemma RunColon(s: string, j: nat, rest: seq<Step>, caps: seq<string>)
    requires j <= |s| && Text.OccursAt(s, ":", j)
    ensures Run(s, [Word(":")] + rest, j, caps) == Run(s, rest, j + 1, caps)
  {
    var steps := [Word(":")] + rest;
    assert steps[0] == Word(":") && steps[1..] == rest;
    RunWord(s, steps, j, caps);
  }

  /** The number's elements of the pattern are a digit run and then a colon. */
  lemma NumberStepsThen(rest: seq<Step>)
    ensures NumberSteps + rest == [Digits] + ([Word(":")] + rest)
  {
  }

  lemma OneCap<T>(x: T, n: T)
    requires x == n
    ensures [] + [x] == [n]
  {
  }

  /** The dashes on their own line and `ORIGINAL:` match the dashes' elements of the pattern. */
  lemma RunDashLine(s: string, w: nat, caps: seq<string>, rest: seq<Step>)
    requires w + 61 <= |s| && s[w] == '\n' && s[w + 51] == '\n'
    requires Text.OccursAt(s, Comparison.Dashes, w + 1) && Text.OccursAt(s, OriginalMarker, w + 52)
    ensures Run(s, DashSteps + rest, w, caps) == Run(s, rest, w + 61, caps)
  {
    var steps := DashSteps + rest;
    assert steps[0] == Spaces && steps[1..][0] == DashRun && steps[2..][0] == Spaces && steps[3..][0] == Word(OriginalMarker);
    assert steps[1..][1..] == steps[2..] && steps[2..][1..] == steps[3..] && steps[3..][1..] == rest;
    Positions(s, w + 1, Comparison.Dashes);
    assert s[w + 52] == s[w + 52..w + 61][0];
    RunExact(s, w, 1, Text.IsPySpace);
    RunExact(s, w + 1, 50, IsDash);
    RunExact(s, w + 51, 1, Text.IsPySpace);
    RunSpaces(s, steps, w, caps, 1);
    RunDashes(s, steps[1..], w + 1, caps, 50);
    RunSpaces(s, steps[2..], w + 51, caps, 1);
    RunWord(s, steps[3..], w + 52, caps);
  }

  /** The number of a block's head and its colon, laid out at `d`. */
  lemma NumberLaid(s: string, d: nat, N: string, rest: seq<string>, steps: seq<Step>)
    requires Laid(s, d, [N, ":"] + rest)
    requires N != [] && forall i :: 0 <= i < |N| ==> Text.IsAsciiDigit(N[i])
    ensures d + |N| + 1 <= |s| && Laid(s, d + |N| + 1, rest)
    ensures Run(s, NumberSteps + steps, d, []) == Run(s, steps, d + |N| + 1, [N])
  {
    assert [N, ":"] + rest == [N] + ([":"] + rest);
    LaidNext(s, d, N, [":"] + rest);
    LaidNext(s, d + |N|, ":", rest);
    RunNumber(s, d, N, steps);
  }

  /** The dashes of a block's head and `ORIGINAL:`, laid out at `w`. */
  lemma DashLaid(s: string, w: nat, rest: seq<string>, caps: seq<string>, steps: seq<Step>)
    requires Laid(s, w, ["\n", Comparison.Dashes, "\n", OriginalMarker] + rest)
    ensures w + 61 <= |s| && Laid(s, w + 61, rest)
    ensures Run(s, DashSteps + steps, w, caps) == Run(s, steps, w + 61, caps)
  {
    var r2 := [OriginalMarker] + rest;
    var r1 := ["\n"] + r2;
    assert ["\n", Comparison.Dashes, "\n", OriginalMarker] + rest == ["\n"] + ([Comparison.Dashes] + r1);
    LaidNext(s, w, "\n", [Comparison.Dashes] + r1);
    LaidNext(s, w + 1, Comparison.Dashes, r1);
    LaidNext(s, w + 51, "\n", r2);
    LaidNext(s, w + 52, OriginalMarker, rest);
    CharAt(s, w, '\n');
    CharAt(s, w + 51, '\n');
    RunDashLine(s, w, caps, steps);
  }

  /** A block's head, laid out at `p`, matches the pattern up to `ORIGINAL:`,
      capturing the block's number. */
  lemma HeadLaid(s: string, p: nat, n: nat, rest: seq<string>)
    requires Laid(s, p, HeadParts(n) + rest)
    ensures Text.OccursAt(s, "POST ", p)
    ensures p + |Text.NatToString(n)| + 67 <= |s| && Laid(s, p + |Text.NatToString(n)| + 67, rest)
    ensures Run(s, Pattern, p + 5, []) == Run(s, GroupSteps, p + |Text.NatToString(n)| + 67, [Text.NatToString(n)])
  {
    var N := Text.NatToString(n);
    var dash := ["\n", Comparison.Dashes, "\n", OriginalMarker] + rest;
    assert HeadParts(n) + rest == ["POST "] + ([N, ":"] + dash);
    LaidNext(s, p, "POST ", [N, ":"] + dash);
    NumberLaid(s, p + 5, N, dash, DashSteps + GroupSteps);
    DashLaid(s, p + 6 + |N|, rest, [N], GroupSteps);
  }

  /** A padded text without `pat` laid out at `i` and followed by `pat`: the
      first `pat` from `i` on is the one right after it. */
  lemma PaddedFind(s: string, i: nat, body: string, pat: string, rest: seq<string>, e: nat)
    requires Laid(s, i, ["\n", body, "\n\n", pat] + rest) && e == i + |body| + 3
    requires !Text.Contains(body, pat) && |pat| > 0 && '\n' !in pat
    ensures e + |pat| <= |s| && Laid(s, e + |pat|, rest)
    ensures Text.FindFrom(s, pat, i) == Some(e) && s[i..e] == Padded(body)
  {
    assert ["\n", body, "\n\n", pat] + rest == ["\n", body, "\n\n"] + ([pat] + rest);
    PaddedAt(s, i, body, [pat] + rest, e);
    LaidNext(s, e, pat, rest);
    FirstAfterPadded(s, i, body, pat);
  }

  /** A one-character part laid out last. */
  lemma LaidLast(s: string, p: nat, c: char)
    requires Laid(s, p, [[c]])
    ensures p < |s| && s[p] == c
  {
    assert [[c]] == [[c]] + [];
    LaidNext(s, p, [c], []);
    CharAt(s, p, c);
  }

  /** Two padded texts, each followed by its marker, laid out at `a` and
      closed by a newline: where each marker is first found. */
  lemma PairLaid(s: string, a: nat, x: string, m1: string, y: string, m2: string, b: nat, c: nat)
    requires Laid(s, a, ["\n", x, "\n\n", m1] + (["\n", y, "\n\n", m2] + ["\n"]))
    requires !Text.Contains(x, m1) && |m1| > 0 && '\n' !in m1
    requires !Text.Contains(y, m2) && |m2| > 0 && '\n' !in m2
    requires b == a + |x| + 3 && c == b + |m1| + |y| + 3
    ensures c + |m2| < |s| && s[c + |m2|] == '\n'
    ensures Text.FindFrom(s, m1, a) == Some(b) && s[a..b] == Padded(x) && b + |m1| <= |s|
    ensures Text.FindFrom(s, m2, b + |m1|) == Some(c) && s[b + |m1|..c] == Padded(y)
  {
    PaddedFind(s, a, x, m1, ["\n", y, "\n\n", m2] + ["\n"], b);
    PaddedFind(s, b + |m1|, y, m2, ["\n"], c);
    LaidLast(s, c + |m2|, '\n');
  }

  /** The same layout: each of the two lazy groups stops at its own marker. */
  lemma PaddedPair(s: string, a: nat, N: string, x: string, m1: string, y: string, m2: string)
    requires Laid(s, a, ["\n", x, "\n\n", m1] + (["\n", y, "\n\n", m2] + ["\n"]))
    requires !Text.Contains(x, m1) && |m1| > 0 && '\n' !in m1
    requires !Text.Contains(y, m2) && |m2| > 0 && '\n' !in m2
    ensures var e := a + |x| + |y| + |m1| + |m2| + 6;
            e < |s| && s[e] == '\n' && Run(s, [Upto(m1), Upto(m2)], a, [N]) == Some(([N, Padded(x), Padded(y)], e))
  {
    var b := a + |x| + 3;
    var c := b + |m1| + |y| + 3;
    PairLaid(s, a, x, m1, y, m2, b, c);
    RunTwo(s, a, N, m1, m2, b, c);
  }

  /** After the head, the post's and the summary's padded texts fill the two
      groups, and the match stops just before the block's last newline. */
  lemma GroupsLaid(s: string, a: nat, N: string, post: string, summary: string)
    requires Laid(s, a, BodyParts(post, summary))
    requires !Text.Contains(post, SummaryMarker) && !Text.Contains(summary, Comparison.Rule)
    ensures a + |post| + |summary| + 95 <= |s| && s[a + |post| + |summary| + 94] == '\n'
    ensures Run(s, GroupSteps, a, [N]) == Some(([N, Padded(post), Padded(summary)], a + |post| + |summary| + 94))
  {
    RuleFacts();
    assert BodyParts(post, summary)
           == ["\n", post, "\n\n", SummaryMarker] + (["\n", summary, "\n\n", Comparison.Rule] + ["\n"]);
    PaddedPair(s, a, N, post, SummaryMarker, summary, Comparison.Rule);
  }

  /** The pattern run to its end after `POST ` gives the match. */
  lemma MatchOfRun(s: string, p: nat, caps: seq<string>, e: nat)
    requires Text.OccursAt(s, "POST ", p) && Run(s, Pattern, p + 5, []) == Some((caps, e)) && |caps| == 3
    ensures MatchAt(Pattern, s, p) == Some(Match(caps[0], caps[1], caps[2], e))
  {
  }

  /** The block the writers lay out for a post is matched right where it
      starts, when the post has no `SUMMARY:` and the summary no rule of 80
      '=': the groups are the post and the summary padded with newlines, and
      the match stops just before the block's last newline. */
  lemma MatchBlock(s: string, p: nat, n: nat, post: string, summary: string)
    requires Laid(s, p, BlockParts(n, post, summary))
    requires !Text.Contains(post, SummaryMarker) && !Text.Contains(summary, Comparison.Rule)
    ensures p + BlockLength(n, post, summary) <= |s| && s[p + BlockLength(n, post, summary) - 1] == '\n'
    ensures MatchAt(Pattern, s, p)
            == Some(Match(Text.NatToString(n), Padded(post), Padded(summary), p + BlockLength(n, post, summary) - 1))
  {
    var N := Text.NatToString(n);
    var a := p + |N| + 67;
    HeadLaid(s, p, n, BodyParts(post, summary));
    GroupsLaid(s, a, N, post, summary);
    MatchOfRun(s, p, [N, Padded(post), Padded(summary)], a + |post| + |summary| + 94);
  }

  // ---------------------------------------------------------------------
  // Scanning a whole comparison text

  /** No match starts at a character other than the `P` of `POST `. */
  lemma NoMatchAt(pattern: seq<Step>, s: string, j: nat)
    requires j < |s| && s[j] != 'P'
    ensures MatchAt(pattern, s, j) == None
  {
    assert j + 5 <= |s| ==> s[j..j + 5][0] == s[j];
  }

  /** A position where no match starts is skipped. */
  lemma SkipNone(pattern: seq<Step>, s: string, j: nat)
    requires j < |s| && MatchAt(pattern, s, j) == None
    ensures FindAll(pattern, s, j) == FindAll(pattern, s, j + 1)
  {
  }

  /** Positions where no match starts are skipped. */
  lemma {:induction false} SkipTo(pattern: seq<Step>, s: string, j: nat, k: nat)
    requires j <= k <= |s|
    requires forall x :: j <= x < k ==> MatchAt(pattern, s, x) == None
    ensures FindAll(pattern, s, j) == FindAll(pattern, s, k)
    decreases k - j
  {
    if j < k {
      SkipNone(pattern, s, j);
      SkipTo(pattern, s, j + 1, k);
    }
  }

  /** A character other than the `P` of `POST ` is skipped by the scan. */
  lemma SkipNonP(pattern: seq<Step>, s: string, j: nat)
    requires j < |s| && s[j] != 'P'
    ensures FindAll(pattern, s, j) == FindAll(pattern, s, j + 1)
  {
    NoMatchAt(pattern, s, j);
    SkipNone(pattern, s, j);
  }

  /** The scan from a newline in front of a match that a newline follows
      finds the match and goes on after that newline. */
  lemma ScanStep(pattern: seq<Step>, s: string, q: nat, m: Match)
    requires q < |s| && s[q] == '\n' && MatchAt(pattern, s, q + 1) == Some(m) && m.end < |s| && s[m.end] == '\n'
    ensures FindAll(pattern, s, q) == [m] + FindAll(pattern, s, m.end + 1)
  {
    NoMatchAt(pattern, s, q);
    assert FirstMatch(pattern, s, q) == Some((q + 1, m));
    SkipNonP(pattern, s, m.end);
  }

  /** Nothing is found at the end of the text. */
  lemma ScanEnd(pattern: seq<Step>, s: string)
    ensures FindAll(pattern, s, |s|) == []
  {
  }

  /** The scan from the newline in front of a block finds the block's match
      and goes on right after the block. */
  lemma ScanBlock(s: string, q: nat, n: nat, post: string, summary: string)
    requires q < |s| && s[q] == '\n' && Laid(s, q + 1, BlockParts(n, post, summary))
    requires !Text.Contains(post, SummaryMarker) && !Text.Contains(summary, Comparison.Rule)
    ensures q + 1 + BlockLength(n, post, summary) <= |s|
    ensures FindAll(Pattern, s, q)
            == [Match(Text.NatToString(n), Padded(post), Padded(summary), q + BlockLength(n, post, summary))]
               + FindAll(Pattern, s, q + 1 + BlockLength(n, post, summary))
  {
    MatchBlock(s, q + 1, n, post, summary);
    var e := q + BlockLength(n, post, summary);
    assert (q + 1) + BlockLength(n, post, summary) - 1 == e;
    ScanStep(Pattern, s, q, Match(Text.NatToString(n), Padded(post), Padded(summary), e));
  }

  /** The blocks after the header, each behind the newline that joins it on. */
  function Rest(first: nat, posts: seq<string>, shown: seq<string>): string
    requires |shown| == |posts|
    decreases |posts|
  {
    if posts == [] then []
    else ("\n" + BlockText(first, posts[0], shown[0])) + Rest(first + 1, posts[1..], shown[1..])
  }

  /** The same, block by block, up to the end of `s`. */
  predicate RestAt(s: string, q: nat, first: nat, posts: seq<string>, shown: seq<string>)
    requires |shown| == |posts|
    decreases |posts|
  {
    if posts == [] then q == |s|
    else
      q < |s| && s[q] == '\n' && Laid(s, q + 1, BlockParts(first, posts[0], shown[0]))
      && RestAt(s, q + 1 + BlockLength(first, posts[0], shown[0]), first + 1, posts[1..], shown[1..])
  }

  /** The first block of the rest, and where the others lie. */
  lemma RestFront(s: string, q: nat, first: nat, posts: seq<string>, shown: seq<string>)
    requires |shown| == |posts| && posts != []
    requires Text.OccursAt(s, Rest(first, posts, shown), q) && q + |Rest(first, posts, shown)| == |s|
    ensures q < |s| && s[q] == '\n' && Laid(s, q + 1, BlockParts(first, posts[0], shown[0]))
    ensures var q2 := q + 1 + BlockLength(first, posts[0], shown[0]);
            Text.OccursAt(s, Rest(first + 1, posts[1..], shown[1..]), q2)
            && q2 + |Rest(first + 1, posts[1..], shown[1..])| == |s|
  {
    var B := BlockText(first, posts[0], shown[0]);
    var R := Rest(first + 1, posts[1..], shown[1..]);
    Split(s, q, "\n" + B, R);
    Split(s, q, "\n", B);
    CharAt(s, q, '\n');
    LaidOf(s, q + 1, BlockParts(first, posts[0], shown[0]));
    BlockTextLength(first, posts[0], shown[0]);
  }

  /** The blocks laid out from `q` to the end are laid out block by block. */
  lemma {:induction false} RestAtOf(s: string, q: nat, first: nat, posts: seq<string>, shown: seq<string>)
    requires |shown| == |posts|
    requires Text.OccursAt(s, Rest(first, posts, shown), q) && q + |Rest(first, posts, shown)| == |s|
    ensures RestAt(s, q, first, posts, shown)
    decreases |posts|
  {
    if posts != [] {
      RestFront(s, q, first, posts, shown);
      RestAtOf(s, q + 1 + BlockLength(first, posts[0], shown[0]), first + 1, posts[1..], shown[1..]);
    }
  }

  /** The posts have no `SUMMARY:` and the texts shown for them no rule. */
  predicate Readable(posts: seq<string>, shown: seq<string>)
    requires |shown| == |posts|
  {
    forall i :: 0 <= i < |posts| ==> !Text.Contains(posts[i], SummaryMarker) && !Text.Contains(shown[i], Comparison.Rule)
  }

  /** The match `findall` gives for each block: its number and its two padded texts. */
  predicate MatchesBlocks(ms: seq<Match>, first: nat, posts: seq<string>, shown: seq<string>)
    requires |shown| == |posts|
  {
    |ms| == |posts|
    && forall i :: 0 <= i < |ms| ==>
         ms[i].number == Text.NatToString(first + i) && ms[i].original == Padded(posts[i]) && ms[i].summary == Padded(shown[i])
  }

  /** A block's match in front of the matches of the blocks after it. */
  lemma MatchesCons(m: Match, ms: seq<Match>, first: nat, posts: seq<string>, shown: seq<string>)
    requires |shown| == |posts| && posts != []
    requires m.number == Text.NatToString(first) && m.original == Padded(posts[0]) && m.summary == Padded(shown[0])
    requires MatchesBlocks(ms, first + 1, posts[1..], shown[1..])
    ensures MatchesBlocks([m] + ms, first, posts, shown)
  {
    forall i | 0 < i < |ms| + 1
      ensures ([m] + ms)[i] == ms[i - 1] && first + i == (first + 1) + (i - 1)
    {
    }
  }

  /** The scan from `q` finds one match per block, in order. */
  lemma {:induction false} ScanRest(s: string, q: nat, first: nat, posts: seq<string>, shown: seq<string>)
    requires |shown| == |posts|
    requires RestAt(s, q, first, posts, shown) && Readable(posts, shown)
    ensures q <= |s|
    ensures MatchesBlocks(FindAll(Pattern, s, q), first, posts, shown)
    decreases |posts|
  {
    if posts == [] {
      ScanEnd(Pattern, s);
    } else {
      var q2 := q + 1 + BlockLength(first, posts[0], shown[0]);
      var m := Match(Text.NatToString(first), Padded(posts[0]), Padded(shown[0]), q2 - 1);
      ScanBlock(s, q, first, posts[0], shown[0]);
      assert Readable(posts[1..], shown[1..]) by {
        forall i | 0 <= i < |posts| - 1 ensures posts[1..][i] == posts[i + 1] && shown[1..][i] == shown[i + 1] {
        }
      }
      ScanRest(s, q2, first + 1, posts[1..], shown[1..]);
      MatchesCons(m, FindAll(Pattern, s, q2), first, posts, shown);
    }
  }

  /** No match starts in a header without `POST ` that a newline closes. */
  lemma SkipHeader(pattern: seq<Step>, s: string, H: string)
    requires |H| <= |s| && s[..|H|] == H && (|H| < |s| ==> s[|H|] == '\n') && !Text.Contains(H, "POST ")
    ensures FindAll(pattern, s, 0) == FindAll(pattern, s, |H|)
  {
    forall x | 0 <= x < |H| ensures MatchAt(pattern, s, x) == None {
      if x + 5 <= |H| {
        Text.NotWithin(s, "POST ", 0, H, x);
      } else if x + 5 <= |s| {
        Text.NotAtForeign(s, "POST ", x, |H|);
      }
    }
    SkipTo(pattern, s, 0, |H|);
  }

  /** The first block, then the others. */
  lemma BlocksCons(first: nat, posts: seq<string>, shown: seq<string>)
    requires |shown| == |posts| && posts != []
    ensures Comparison.Blocks(first, posts, shown)
            == Comparison.BlockLines(first, posts[0], shown[0]) + Comparison.Blocks(first + 1, posts[1..], shown[1..])
  {
  }

  /** The text the writers produce is the joined header followed by the blocks,
      each behind a newline. */
  lemma {:induction false} RestJoin(header: seq<string>, first: nat, posts: seq<string>, shown: seq<string>)
    requires header != [] && |shown| == |posts|
    ensures Text.Join(header + Comparison.Blocks(first, posts, shown), "\n") == Text.Join(header, "\n") + Rest(first, posts, shown)
    decreases |posts|
  {
    if posts == [] {
      assert header + Comparison.Blocks(first, posts, shown) == header;
    } else {
      var L := Comparison.BlockLines(first, posts[0], shown[0]);
      var more := Comparison.Blocks(first + 1, posts[1..], shown[1..]);
      BlocksCons(first, posts, shown);
      RestJoin(header + L, first + 1, posts[1..], shown[1..]);
      assert header + Comparison.Blocks(first, posts, shown) == (header + L) + more;
      Text.JoinAppend(header, L, "\n");
      JoinBlock(first, posts[0], shown[0]);
    }
  }

  /** `findall` on the text the writers produce gives one match per post, in
      order, with the post's number and the post and the text shown for it
      padded with newlines, provided the header has no `POST `, no post has
      `SUMMARY:` and no shown text has a rule of 80 '='. */
  lemma ReadBack(header: seq<string>, posts: seq<string>, shown: seq<string>)
    requires header != [] && |shown| == |posts|
    requires !Text.Contains(Text.Join(header, "\n"), "POST ") && Readable(posts, shown)
    ensures MatchesBlocks(FindAll(Pattern, Text.Join(header + Comparison.Blocks(1, posts, shown), "\n"), 0), 1, posts, shown)
  {
    RestJoin(header, 1, posts, shown);
    ScanText(Text.Join(header, "\n"), posts, shown);
  }

  /** The rest starts with the newline in front of its first block. */
  lemma RestStart(first: nat, posts: seq<string>, shown: seq<string>)
    requires |shown| == |posts| && posts != []
    ensures |Rest(first, posts, shown)| > 0 && Rest(first, posts, shown)[0] == '\n'
  {
  }

  /** Where the header and the rest lie in the text. */
  lemma HeaderFacts(H: string, first: nat, posts: seq<string>, shown: seq<string>)
    requires |shown| == |posts|
    ensures var s, R := H + Rest(first, posts, shown), Rest(first, posts, shown);
            s[..|H|] == H && (|H| < |s| ==> s[|H|] == '\n')
            && Text.OccursAt(s, R, |H|) && |H| + |R| == |s|
  {
    var s, R := H + Rest(first, posts, shown), Rest(first, posts, shown);
    assert s[..|H|] == H && s[|H|..|H| + |R|] == R;
    if posts != [] {
      RestStart(first, posts, shown);
      assert s[|H|] == R[0];
    }
  }

  /** The scan of a header without `POST ` followed by the blocks. */
  lemma ScanText(H: string, posts: seq<string>, shown: seq<string>)
    requires |shown| == |posts|
    requires !Text.Contains(H, "POST ") && Readable(posts, shown)
    ensures MatchesBlocks(FindAll(Pattern, H + Rest(1, posts, shown), 0), 1, posts, shown)
  {
    var s := H + Rest(1, posts, shown);
    HeaderFacts(H, 1, posts, shown);
    SkipHeader(Pattern, s, H);
    RestAtOf(s, |H|, 1, posts, shown);
    ScanRest(s, |H|, 1, posts, shown);
  }

  /** Stripping a padded text strips the text. */
  lemma StripPaddedText(x: string)
    ensures Text.PyStrip(Padded(x)) == Text.PyStrip(x)
  {
    assert Padded(x) == "\n" + x + "\n\n";
    assert Text.AllBy("\n\n", Text.IsPySpace);
    Text.StripAround("\n", x, "\n\n", Text.IsPySpace);
  }

  /** The entries of the matches of the blocks: each post and its shown text, stripped. */
  lemma EntriesOfBlocks(ms: seq<Match>, first: nat, posts: seq<string>, shown: seq<string>, i: nat)
    requires |shown| == |posts| && MatchesBlocks(ms, first, posts, shown) && i < |ms|
    ensures Entries(ms)[i] == (Text.PyStrip(posts[i]), Text.PyStrip(shown[i]))
  {
    EntriesAt(ms, i);
    StripPaddedText(posts[i]);
    StripPaddedText(shown[i]);
  }

  /** The round trip: the dictionary read back from the text the writers
      produce has the stripped posts as its keys, and for each post the
      stripped text shown for it, unless a later post strips to the same key
      (then the later one wins). */
  lemma RoundTrip(header: seq<string>, posts: seq<string>, shown: seq<string>)
    requires header != [] && |shown| == |posts|
    requires !Text.Contains(Text.Join(header, "\n"), "POST ") && Readable(posts, shown)
    ensures var d := Collect(FindAll(Pattern, Text.Join(header + Comparison.Blocks(1, posts, shown), "\n"), 0));
            (forall k :: k in d <==> exists i :: 0 <= i < |posts| && Text.PyStrip(posts[i]) == k)
            && forall i :: 0 <= i < |posts| && (forall j :: i < j < |posts| ==> Text.PyStrip(posts[j]) != Text.PyStrip(posts[i]))
                 ==> d[Text.PyStrip(posts[i])] == Text.PyStrip(shown[i])
  {
    ReadBack(header, posts, shown);
    CollectBlocks(FindAll(Pattern, Text.Join(header + Comparison.Blocks(1, posts, shown), "\n"), 0), posts, shown);
  }

  /** The dictionary collected from the matches of the blocks. */
  lemma CollectBlocks(ms: seq<Match>, posts: seq<string>, shown: seq<string>)
    requires |shown| == |posts| && MatchesBlocks(ms, 1, posts, shown)
    ensures var d := Collect(ms);
            (forall k :: k in d <==> exists i :: 0 <= i < |posts| && Text.PyStrip(posts[i]) == k)
            && forall i :: 0 <= i < |posts| && (forall j :: i < j < |posts| ==> Text.PyStrip(posts[j]) != Text.PyStrip(posts[i]))
                 ==> d[Text.PyStrip(posts[i])] == Text.PyStrip(shown[i])
  {
    var es := Entries(ms);
    forall i | 0 <= i < |ms| ensures es[i] == (Text.PyStrip(posts[i]), Text.PyStrip(shown[i])) {
      EntriesOfBlocks(ms, 1, posts, shown, i);
    }
    FillLastWins(es);
  }
}
