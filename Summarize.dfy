/** The post summariser of preprocessing/2_summarize_and_prepare.py: the text
    clean-up before prompting, the recovery of a JSON reply (fence and brace
    extraction, then the four-strategy cascade), the fallbacks that give every
    post of a batch a summary, the batch call against the key pool
    (`APIKeyManager`) with its retries, the recursive halving of an over-budget
    batch, and the file-level naming rules.

    The URL/e-mail/phone rewrites of `clean_text` are one parameter (`redact`);
    `json.loads`, `fix_json_format` and each regular expression of the cascade
    and of the last-resort fallback are fields of `Patterns`; the remote model
    is a reply per call and attempt, and the clock a reading per call and
    attempt. */
module Summarize {
  import opened Wrappers
  import opened JsonValues
  import Text
  import Tokens
  import Frames
  import KeyManager
  import SummaryBatch

  const BatchSize: nat := 3
  const MaxTokens: nat := 4000
  const RetryAttempts: nat := 3

  /** The characters `IMPROVED_PROMPT` and the appended JSON note add around the
      entries (2875 - 14 for the template without its placeholder, plus 844). */
  const PromptFrame: nat := 3705

  const BlockedSummary: string := "Nội dung bị chặn bởi AI safety filter"
  const JsonErrorSummary: string := "1. Nội dung sơ lược: [Lỗi JSON]\n2. Vấn đề: Không xác định\n3. Phản động/tin giả: Không xác định"
  const GaveUpSummary: string := "Không thể tóm tắt sau nhiều lần thử"
  /** What the comparison text shows for a post the batch left without a summary. */
  const MissingSummary: string := "❌ Không thể tóm tắt"

  // ---------------------------------------------------------------------
  // clean_text

  /** The character class `[!@#$%^&*()]`. */
  predicate IsNoisy(c: char) {
    c == '!' || c == '@' || c == '#' || c == '$' || c == '%' || c == '^' || c == '&' || c == '*' || c == '(' || c == ')'
  }

  /** `re.sub(r'[!@#$%^&*()]+', ' ', s)`: each maximal run of those characters becomes one space. */
  function SquashNoise(s: string): (r: string)
    ensures forall i :: 0 <= i < |r| ==> !IsNoisy(r[i])
    ensures |r| <= |s|
    ensures forall i :: 0 <= i < |r| ==> r[i] == ' ' || exists j :: 0 <= j < |s| && s[j] == r[i]
    decreases |s|
  {
    if s == [] then []
    else if IsNoisy(s[0]) then
      var rest := SquashNoise(s[Text.LeadCount(s, IsNoisy)..]);
      assert forall i :: 0 <= i < |rest| ==> rest[i] == ' ' || exists j :: 0 <= j < |s| && s[j] == rest[i] by {
        forall i | 0 <= i < |rest| && rest[i] != ' '
          ensures exists j :: 0 <= j < |s| && s[j] == rest[i]
        {
          var n := Text.LeadCount(s, IsNoisy);
          var j :| 0 <= j < |s[n..]| && s[n..][j] == rest[i];
          assert s[n + j] == rest[i];
        }
      }
      " " + rest
    else
      var rest := SquashNoise(s[1..]);
      assert forall i :: 0 <= i < |rest| ==> rest[i] == ' ' || exists j :: 0 <= j < |s| && s[j] == rest[i] by {
        forall i | 0 <= i < |rest| && rest[i] != ' '
          ensures exists j :: 0 <= j < |s| && s[j] == rest[i]
        {
          var j :| 0 <= j < |s[1..]| && s[1..][j] == rest[i];
          assert s[j + 1] == rest[i];
        }
      }
      [s[0]] + rest
  }

  /** A text without those characters is left alone. */
  lemma {:induction false} SquashNoiseQuiet(s: string)
    requires forall i :: 0 <= i < |s| ==> !IsNoisy(s[i])
    ensures SquashNoise(s) == s
    decreases |s|
  {
    if s != [] {
      SquashNoiseQuiet(s[1..]);
    }
  }

  /** The replacements after the rewrites: '"' becomes "'", line breaks become
      spaces, and runs of noisy punctuation a single space. */
  function Tidy(s: string): string {
    SquashNoise(Text.ReplaceChar(Text.ReplaceChar(Text.ReplaceChar(s, '"', '\''), '\n', ' '), '\r', ' '))
  }

  /** `clean_text` on a string: strip, rewrite URLs, e-mail addresses and phone
      numbers (`redact`), then `Tidy` (NFC normalisation is not modelled). */
  function CleanText(text: string, redact: string -> string): (r: string)
    ensures forall i :: 0 <= i < |r| ==> r[i] != '"' && r[i] != '\n' && r[i] != '\r' && !IsNoisy(r[i])
  {
    Tidy(redact(Text.PyStrip(text)))
  }

  /** Cleaning what has already been cleaned changes nothing further. */
  lemma TidyIdempotent(s: string)
    ensures Tidy(Tidy(s)) == Tidy(s)
  {
    var t := Tidy(s);
    assert Text.ReplaceChar(t, '"', '\'') == t;
    assert Text.ReplaceChar(t, '\n', ' ') == t;
    assert Text.ReplaceChar(t, '\r', ' ') == t;
    SquashNoiseQuiet(t);
  }

  /** The cleaner this summariser hands to the batch prompt. */
  function Cleaner(redact: string -> string): string -> string {
    s => CleanText(s, redact)
  }

  // ---------------------------------------------------------------------
  // clean_json_text

  /** `text[a:b]` for in-range bounds: empty when `a > b`. */
  function Slice(text: string, a: nat, b: nat): (r: string)
    requires a <= |text| && b <= |text|
    ensures a <= b ==> r == text[a..b]
    ensures b < a ==> r == ""
  {
    if a <= b then text[a..b] else ""
  }

  /** `clean_json_text`: the text after the first "```json" up to the next
      "```" (or to the end), stripped; else, when both braces occur, from the
      first '{' to the last '}'; then every "```" removed and the result stripped. */
  function CleanJsonText(text: string): string {
    Unfence(FencedBody(text))
  }

  /** The part of the response `clean_json_text` keeps before removing fences. */
  function FencedBody(text: string): string {
    match Text.Find(text, "```json")
    case Some(i) =>
      (match Text.FindFrom(text, "```", i + 7)
       case Some(j) => Text.PyStrip(text[i + 7..j])
       case None => Text.PyStrip(text[i + 7..]))
    case None =>
      if Text.Contains(text, "{") && Text.Contains(text, "}") then
        Slice(text, Text.Find(text, "{").value, Text.FindLast(text, "}").value + 1)
      else text
  }

  /** Every "```" removed, then the result stripped. */
  function Unfence(s: string): string {
    Text.PyStrip(Text.ReplaceAll(s, "```", ""))
  }

  /** The text holds no backquote. */
  predicate NoBackquote(s: string) {
    forall k :: 0 <= k < |s| ==> s[k] != '`'
  }

  /** No pattern starting with a backquote occurs where the text has none. */
  lemma NotAtTick(s: string, p: string, j: nat)
    requires j < |s| && s[j] != '`' && |p| > 0 && p[0] == '`'
    ensures !Text.OccursAt(s, p, j)
  {
    if j + |p| <= |s| {
      assert s[j..j + |p|][0] == s[j];
    }
  }

  /** A text without backquotes contains no fence. */
  lemma NoTickNoFence(s: string)
    requires NoBackquote(s)
    ensures Text.Find(s, "```").None?
  {
    forall j | 0 <= j <= |s|
      ensures !Text.OccursAt(s, "```", j)
    {
      if j < |s| {
        NotAtTick(s, "```", j);
      }
    }
  }

  /** A backquote-led pattern is first found at `k` when no backquote comes before it. */
  lemma {:induction false} FirstTickPattern(s: string, p: string, i: nat, k: nat)
    requires i <= k && k + |p| <= |s| && s[k..k + |p|] == p && |p| > 0 && p[0] == '`'
    requires NoBackquote(s[i..k])
    ensures Text.FindFrom(s, p, i) == Some(k)
    decreases k - i
  {
    if i < k {
      assert s[i..k][0] == s[i];
      NotAtTick(s, p, i);
      assert s[i + 1..k] == s[i..k][1..];
      FirstTickPattern(s, p, i + 1, k);
    }
  }

  /** An opening fence at `a` and a closing fence `n` characters after it, with no
      backquote before either, are the two fences found. */
  lemma FencesIn(text: string, a: nat, open: string, n: nat, close: string)
    requires |open| > 0 && open[0] == '`' && |close| > 0 && close[0] == '`'
    requires a + |open| + n + |close| <= |text|
    requires text[a..a + |open|] == open
    requires text[a + |open| + n..a + |open| + n + |close|] == close
    requires NoBackquote(text[0..a]) && NoBackquote(text[a + |open|..a + |open| + n])
    ensures Text.FindFrom(text, open, 0) == Some(a)
    ensures Text.FindFrom(text, close, a + |open|) == Some(a + |open| + n)
  {
    FirstTickPattern(text, open, 0, a);
    FirstTickPattern(text, close, a + |open|, a + |open| + n);
  }

  /** Where both fences are found, the clean-up keeps what lies between them. */
  lemma CleanJsonTextBetween(text: string, i: nat, j: nat)
    requires Text.Find(text, "```json") == Some(i)
    requires i + 7 <= |text| && Text.FindFrom(text, "```", i + 7) == Some(j)
    ensures CleanJsonText(text) == Unfence(Text.PyStrip(text[i + 7..j]))
  {
    assert FencedBody(text) == Text.PyStrip(text[i + 7..j]);
  }

  /** Stripping a backquote-free text, removing fences and stripping again gives the
      text stripped once. */
  lemma StripWithoutFences(body: string)
    requires NoBackquote(body)
    ensures Unfence(Text.PyStrip(body)) == Text.PyStrip(body)
  {
    var inner := Text.PyStrip(body);
    var a := Text.LeadCount(body, Text.IsPySpace);
    assert forall k :: 0 <= k < |inner| ==> inner[k] == body[a + k];
    NoTickNoFence(inner);
    assert Text.ReplaceAll(inner, "```", "") == inner;
    Text.StripByIdempotent(body, Text.IsPySpace);
  }

  /** A fenced block is recovered exactly (up to surrounding whitespace): the
      text has "```json" at `a` and "```" `n` characters after it, with no
      backquote before the opening fence or inside the block. */
  lemma CleanJsonTextFenced(text: string, a: nat, n: nat)
    requires a + 7 + n + 3 <= |text|
    requires text[a..a + 7] == "```json" && text[a + 7 + n..a + 7 + n + 3] == "```"
    requires NoBackquote(text[..a]) && NoBackquote(text[a + 7..a + 7 + n])
    ensures CleanJsonText(text) == Text.PyStrip(text[a + 7..a + 7 + n])
  {
    var open, close := "```json", "```";
    assert |open| == 7 && open[0] == '`' && |close| == 3 && close[0] == '`';
    assert text[0..a] == text[..a];
    FencesIn(text, a, open, n, close);
    CleanJsonTextBetween(text, a, a + 7 + n);
    StripWithoutFences(text[a + 7..a + 7 + n]);
  }

  // ---------------------------------------------------------------------
  // super_resilient_json_parser

  /** The parts of the recovery that are not modelled as code, each as what it
      returns on a response text: `json.loads`, `fix_json_format`, and the
      findall/split/search results of the regular expressions the cascade and
      the last-resort fallback use. */
  datatype Patterns = Patterns(
    loads: string -> Option<Json>,
    fix: string -> string,
    resultIds: string -> seq<string>,
    summaries: string -> seq<string>,
    sections: string -> seq<string>,
    sectionParts: string -> (Option<string>, Option<string>, Option<string>),
    leads: string -> seq<string>,
    problem: string -> Option<string>,
    verdict: string -> Option<string>)

  /** The summary of a regex match with its escapes read: `\n` and `\"` become a
      newline and a quote. */
  function Unescape(s: string): string {
    Text.ReplaceAll(Text.ReplaceAll(s, "\\n", "\n"), "\\\"", "\"")
  }

  /** `{"id": id, "summary": summary}`. */
  function ResultItem(id: string, summary: string): Json {
    JObject([("id", JString(id)), ("summary", JString(summary))])
  }

  /** `{"results": elems}`. */
  function ResultsObject(elems: seq<Json>): Json {
    JObject([("results", JArray(elems))])
  }

  /** Strategy 3's results: the i-th id match paired with the i-th summary match. */
  function Paired(ids: seq<string>, sums: seq<string>): (r: seq<Json>)
    requires |ids| == |sums|
    ensures |r| == |ids|
  {
    seq(|ids|, i requires 0 <= i < |ids| => ResultItem(ids[i], Unescape(sums[i])))
  }

  /** Strategy 3's loop. */
  method RebuildFromMatches(ids: seq<string>, sums: seq<string>) returns (reply: Json)
    requires |ids| == |sums|
    ensures reply == ResultsObject(Paired(ids, sums))
  {
    var results: seq<Json> := [];
    var i := 0;
    while i < |ids|
      invariant i <= |ids| && results == Paired(ids, sums)[..i]
    {
      var summary := Unescape(sums[i]);
      results := results + [ResultItem(ids[i], summary)];
      i := i + 1;
    }
    assert results == Paired(ids, sums);
    reply := ResultsObject(results);
  }

  /** The text strategy 4 builds from a section's three searches. */
  function SectionSummary(parts: (Option<string>, Option<string>, Option<string>)): (r: string)
    ensures r == "" <==> parts.0.None? && parts.1.None? && parts.2.None?
  {
    (if parts.0.Some? then "1. Nội dung sơ lược: " + Text.PyStrip(parts.0.value) + "\n" else "")
    + (if parts.1.Some? then "2. Vấn đề: " + Text.PyStrip(parts.1.value) + "\n" else "")
    + (if parts.2.Some? then "3. Phản động/tin giả: " + Text.PyStrip(parts.2.value) else "")
  }

  /** The result strategy 4 makes of section `i`: `id{i}` with the section's
      summary, or nothing when none of its three parts was found. */
  function SectionResult(i: nat, section: string, parts: string -> (Option<string>, Option<string>, Option<string>)): (r: Option<Json>)
    requires 1 <= i
    ensures r.Some? <==> SectionSummary(parts(section)) != ""
  {
    var text := SectionSummary(parts(section));
    if text != "" then Some(ResultItem(SummaryBatch.BatchId(i - 1), Text.PyStrip(text))) else None
  }

  /** Strategy 4's results for sections 1 .. n-1 of the split (section 0 is what
      precedes the first id), in order. */
  function Sections(sections: seq<string>, n: nat, parts: string -> (Option<string>, Option<string>, Option<string>)): (r: seq<Json>)
    requires n <= |sections|
    ensures |r| < n || n == 0
  {
    if n <= 1 then []
    else
      var prev := Sections(sections, n - 1, parts);
      match SectionResult(n - 1, sections[n - 1], parts)
      case Some(item) => prev + [item]
      case None => prev
  }

  /** Strategy 4 finds nothing exactly when no section after the first has any of its parts. */
  lemma {:induction false} SectionsEmpty(sections: seq<string>, n: nat, parts: string -> (Option<string>, Option<string>, Option<string>))
    requires n <= |sections|
    ensures Sections(sections, n, parts) == [] <==> forall i :: 1 <= i < n ==> SectionSummary(parts(sections[i])) == ""
  {
    if n > 1 {
      SectionsEmpty(sections, n - 1, parts);
      if SectionSummary(parts(sections[n - 1])) != "" {
        assert |Sections(sections, n, parts)| == |Sections(sections, n - 1, parts)| + 1;
      }
    }
  }

  /** Section `i` extends the results by its item exactly when its summary is not empty. */
  lemma SectionStep(sections: seq<string>, i: nat, parts: string -> (Option<string>, Option<string>, Option<string>),
                    resultId: string, text: string, prev: seq<Json>, next: seq<Json>)
    requires 1 <= i < |sections| && prev == Sections(sections, i, parts)
    requires text == SectionSummary(parts(sections[i])) && resultId == SummaryBatch.BatchId(i - 1)
    requires next == if text != "" then prev + [ResultItem(resultId, Text.PyStrip(text))] else prev
    ensures next == Sections(sections, i + 1, parts)
  {
  }

  /** One round of strategy 4's loop: section `i`'s summary, appended under
      `id{i}` when it is not empty. */
  method AddSection(results: seq<Json>, i: nat, section: string,
                    parts: string -> (Option<string>, Option<string>, Option<string>))
    returns (next: seq<Json>, resultId: string, text: string)
    ensures resultId == SummaryBatch.BatchId(i) && text == SectionSummary(parts(section))
    ensures next == if text != "" then results + [ResultItem(resultId, Text.PyStrip(text))] else results
  {
    resultId := "id" + Text.NatToString(i + 1);
    text := SectionSummary(parts(section));
    next := results;
    if text != "" {
      next := next + [ResultItem(resultId, Text.PyStrip(text))];
    }
  }

  /** Strategy 4's loop. */
  method RebuildFromSections(sections: seq<string>, parts: string -> (Option<string>, Option<string>, Option<string>))
    returns (results: seq<Json>)
    ensures results == Sections(sections, |sections|, parts)
  {
    results := [];
    if |sections| > 1 {
      var i := 1;
      while i < |sections|
        invariant 1 <= i <= |sections| && results == Sections(sections, i, parts)
      {
        ghost var prev := results;
        var resultId, text;
        results, resultId, text := AddSection(results, i - 1, sections[i], parts);
        SectionStep(sections, i, parts, resultId, text, prev, results);
        i := i + 1;
      }
    }
  }

  /** Whether strategy 3 applies: both match lists non-empty and equally long. */
  predicate Pairable(ids: seq<string>, sums: seq<string>) {
    ids != [] && sums != [] && |ids| == |sums|
  }

  /** `super_resilient_json_parser`: the first strategy that succeeds, or None
      where it raises JSONDecodeError. */
  function SuperResilient(text: string, pat: Patterns): Option<Json> {
    var clean := CleanJsonText(text);
    if pat.loads(clean).Some? then pat.loads(clean)
    else if pat.loads(pat.fix(clean)).Some? then pat.loads(pat.fix(clean))
    else if Pairable(pat.resultIds(text), pat.summaries(text)) then
      Some(ResultsObject(Paired(pat.resultIds(text), pat.summaries(text))))
    else if Text.Contains(text, "1. Nội dung sơ lược:") && Sections(pat.sections(text), |pat.sections(text)|, pat.sectionParts) != [] then
      Some(ResultsObject(Sections(pat.sections(text), |pat.sections(text)|, pat.sectionParts)))
    else None
  }

  /** The parser as written. */
  method SuperResilientJsonParser(text: string, pat: Patterns) returns (reply: Option<Json>)
    ensures reply == SuperResilient(text, pat)
  {
    var jsonText := CleanJsonText(text);
    reply := pat.loads(jsonText);
    if reply.Some? {
      return;
    }
    var fixedJson := pat.fix(jsonText);
    reply := pat.loads(fixedJson);
    if reply.Some? {
      return;
    }
    var idMatches := pat.resultIds(text);
    var summaryMatches := pat.summaries(text);
    if idMatches != [] && summaryMatches != [] && |idMatches| == |summaryMatches| {
      var rebuilt := RebuildFromMatches(idMatches, summaryMatches);
      return Some(rebuilt);
    }
    if Text.Contains(text, "1. Nội dung sơ lược:") {
      var results := RebuildFromSections(pat.sections(text), pat.sectionParts);
      if results != [] {
        return Some(ResultsObject(results));
      }
    }
    return None;
  }

  /** Strategy 3 puts each summary match, unescaped, under the post whose id it
      was paired with: over distinct posts, the post at `k` gets a summary
      exactly when `id{k+1}` is among the id matches, and it gets the one paired
      with the last such match. */
  lemma PairedRouting(ids: seq<string>, sums: seq<string>, batch: seq<string>, k: nat)
    requires |ids| == |sums| && k < |batch| && Frames.Distinct(batch)
    ensures var m := SummaryBatch.MappedResults(ResultsObject(Paired(ids, sums)), batch, SummaryBatch.BatchIds(|batch|), JString(""));
            m.Some?
            && (batch[k] in m.value <==> SummaryBatch.BatchId(k) in ids)
            && (batch[k] in m.value ==> exists i :: 0 <= i < |ids| && ids[i] == SummaryBatch.BatchId(k)
                                                  && m.value[batch[k]] == JString(Unescape(sums[i])))
  {
    var elems := Paired(ids, sums);
    var bids := SummaryBatch.BatchIds(|batch|);
    assert GetOr([("results", JArray(elems))], "results", JArray([])) == JArray(elems);
    PairedMapped(ids, sums, |ids|, batch);
    var m := SummaryBatch.MapItems(elems, |elems|, batch, bids, JString(""));
    SummaryBatch.MapItemsAt(elems, |elems|, batch, bids, JString(""), k);
    forall i | 0 <= i < |ids|
      ensures SummaryBatch.Names(elems[i], batch, bids, k) <==> ids[i] == SummaryBatch.BatchId(k)
    {
      assert Get(elems[i].items, "id") == Some(JString(ids[i]));
      SummaryBatch.TargetIsId(elems[i].items, batch, k);
    }
    var last := SummaryBatch.LastNaming(elems, |elems|, batch, bids, k);
    if last.Some? {
      var i := last.value;
      assert GetOr(elems[i].items, "summary", JString("")) == JString(Unescape(sums[i]));
    }
    if SummaryBatch.BatchId(k) in ids {
      var i :| 0 <= i < |ids| && ids[i] == SummaryBatch.BatchId(k);
      assert SummaryBatch.Names(elems[i], batch, bids, k);
    }
  }

  /** Every rebuilt result is a dictionary, so the mapping loop never raises on them. */
  lemma {:induction false} PairedMapped(ids: seq<string>, sums: seq<string>, n: nat, batch: seq<string>)
    requires |ids| == |sums| && n <= |ids|
    ensures SummaryBatch.MapItems(Paired(ids, sums), n, batch, SummaryBatch.BatchIds(|batch|), JString("")).Some?
  {
    if n > 0 {
      PairedMapped(ids, sums, n - 1, batch);
      assert Paired(ids, sums)[n - 1].JObject?;
    }
  }

  // ---------------------------------------------------------------------
  // The last-resort fallback after a JSONDecodeError

  /** The summary rebuilt from one "1. Nội dung sơ lược:" match, with the first
      "2. Vấn đề:" and "3. Phản động/tin giả:" matches of the whole response. */
  function LeadSummary(lead: string, problem: Option<string>, verdict: Option<string>): string {
    "1. Nội dung sơ lược:" + Text.PyStrip(lead)
    + (if problem.Some? then "\n2. Vấn đề:" + Text.PyStrip(problem.value) else "")
    + (if verdict.Some? then "\n3. Phản động/tin giả:" + Text.PyStrip(verdict.value) else "")
  }

  /** The first `n` lead matches onto the first posts of the batch, in order. */
  function LeadMap(leads: seq<string>, n: nat, batch: seq<string>, problem: Option<string>, verdict: Option<string>): (r: map<string, Json>)
    requires n <= |leads|
    ensures forall k :: k in r <==> exists i :: 0 <= i < n && i < |batch| && batch[i] == k
  {
    if n == 0 then map[]
    else
      var prev := LeadMap(leads, n - 1, batch, problem, verdict);
      if n - 1 < |batch| then prev[batch[n - 1] := JString(LeadSummary(leads[n - 1], problem, verdict))] else prev
  }

  /** Lead match `i` maps post `i` to its summary, when the batch has one. */
  lemma LeadStep(leads: seq<string>, i: nat, batch: seq<string>, problem: Option<string>, verdict: Option<string>,
                 prev: map<string, Json>, next: map<string, Json>)
    requires i < |leads| && prev == LeadMap(leads, i, batch, problem, verdict)
    requires next == if i < |batch| then prev[batch[i] := JString(LeadSummary(leads[i], problem, verdict))] else prev
    ensures next == LeadMap(leads, i + 1, batch, problem, verdict)
  {
  }

  /** The fallback's outcome: the rebuilt summaries when there are lead
      matches, else the placeholder for every post. */
  function LastResortSummaries(text: string, batch: seq<string>, pat: Patterns): map<string, Json> {
    var leads := pat.leads(text);
    var m := LeadMap(leads, |leads|, batch, pat.problem(text), pat.verdict(text));
    if leads != [] && m != map[] then m else SummaryBatch.Uniform(batch, JString(JsonErrorSummary))
  }

  /** The last resort never loses a post it has a match for, and covers the
      whole batch when there are none: with `L` lead matches, exactly the
      first `min(L, len(batch))` posts get one, each its own match over
      distinct posts. */
  lemma LastResortShape(text: string, batch: seq<string>, pat: Patterns)
    requires batch != []
    ensures var r := LastResortSummaries(text, batch, pat);
            var leads := pat.leads(text);
            (leads == [] ==> forall k :: k in r <==> k in batch)
            && (leads != [] ==> forall i :: 0 <= i < |batch| ==> (batch[i] in r <==> i < |leads| || exists j :: 0 <= j < |leads| && j < |batch| && batch[j] == batch[i]))
  {
    var leads := pat.leads(text);
    if leads != [] {
      assert batch[0] in LeadMap(leads, |leads|, batch, pat.problem(text), pat.verdict(text));
    }
  }

  /** The fallback's loop as written. */
  method LastResort(text: string, batch: seq<string>, pat: Patterns) returns (r: map<string, Json>)
    ensures r == LastResortSummaries(text, batch, pat)
  {
    var matches := pat.leads(text);
    var summaries: map<string, Json> := map[];
    if matches != [] {
      var i := 0;
      while i < |matches|
        invariant i <= |matches| && summaries == LeadMap(matches, i, batch, pat.problem(text), pat.verdict(text))
      {
        ghost var prev := summaries;
        if i < |batch| {
          var summaryText := LeadSummary(matches[i], pat.problem(text), pat.verdict(text));
          summaries := summaries[batch[i] := JString(summaryText)];
        }
        LeadStep(matches, i, batch, pat.problem(text), pat.verdict(text), prev, summaries);
        i := i + 1;
      }
      if summaries != map[] {
        return summaries;
      }
    }
    r := SummaryBatch.Fallback(batch, JString(JsonErrorSummary));
  }

  // ---------------------------------------------------------------------
  // One attempt of process_batch

  /** The handler of an exception raised by the call or by reading the reply:
      a message naming `finish_reason` and containing a '2' is a safety block
      and ends the batch with the blocked placeholder for every post; a quota
      message ("429", or "quota" in any case) asks for the next key; anything
      else is retried as it is. */
  function ErrorOutcome(batch: seq<string>, error: string): (o: SummaryBatch.Outcome)
    ensures o.Finished? <==> Text.Contains(error, "finish_reason") && Text.Contains(error, "2")
    ensures o.Finished? ==> o.summaries == SummaryBatch.Uniform(batch, JString(BlockedSummary))
    ensures o.TryAgain? ==> (o.switchKey <==> Text.Contains(error, "429") || Text.Contains(Text.Lower(error), "quota"))
  {
    if Text.Contains(error, "finish_reason") && Text.Contains(error, "2") then
      SummaryBatch.Finished(SummaryBatch.Uniform(batch, JString(BlockedSummary)))
    else
      SummaryBatch.TryAgain(Text.Contains(error, "429") || Text.Contains(Text.Lower(error), "quota"))
  }

  /** What one attempt decides from the model's reply: a blocked reply gives
      every post the blocked placeholder; a text is stripped and recovered by
      the cascade, whose result is mapped onto the batch (a mapping that
      raises is retried); when the cascade fails the last resort answers. */
  function AttemptOutcome(reply: SummaryBatch.Reply, batch: seq<string>, ids: seq<string>, pat: Patterns): (o: SummaryBatch.Outcome)
    ensures o.Finished? ==> forall k :: k in o.summaries ==> k in batch
  {
    match reply
    case CallFailed(e) => ErrorOutcome(batch, e)
    case TextFailed(e) => ErrorOutcome(batch, e)
    case Blocked => SummaryBatch.Finished(SummaryBatch.Uniform(batch, JString(BlockedSummary)))
    case Answered(t) =>
      var text := Text.PyStrip(t);
      match SuperResilient(text, pat)
      case Some(j) =>
        (match SummaryBatch.MappedResults(j, batch, ids, JString(""))
         case Some(m) => SummaryBatch.Finished(m)
         case None => SummaryBatch.TryAgain(false))
      case None => SummaryBatch.Finished(LastResortSummaries(text, batch, pat))
  }

  /** The posts an attempt leaves without a summary: only a recovered reply that
      does not name them, or a last resort with fewer lead matches than posts,
      can. Every other way an attempt ends covers the batch. */
  lemma AttemptCovers(reply: SummaryBatch.Reply, batch: seq<string>, ids: seq<string>, pat: Patterns, k: string)
    requires AttemptOutcome(reply, batch, ids, pat).Finished? && k in batch
    requires k !in AttemptOutcome(reply, batch, ids, pat).summaries
    ensures reply.Answered?
    ensures var text := Text.PyStrip(reply.text);
            SuperResilient(text, pat).Some? || 0 < |pat.leads(text)| < |batch|
  {
    if reply.Answered? {
      var text := Text.PyStrip(reply.text);
      if SuperResilient(text, pat).None? {
        LastResortShape(text, batch, pat);
      }
    }
  }

  /** One attempt's handling of the reply, as written. */
  method RunAttempt(reply: SummaryBatch.Reply, batch: seq<string>, ids: seq<string>, pat: Patterns)
    returns (o: SummaryBatch.Outcome)
    ensures o == AttemptOutcome(reply, batch, ids, pat)
  {
    match reply {
      case CallFailed(e) =>
        o := ErrorOutcome(batch, e);
      case TextFailed(e) =>
        o := ErrorOutcome(batch, e);
      case Blocked =>
        var fallback := SummaryBatch.Fallback(batch, JString(BlockedSummary));
        o := SummaryBatch.Finished(fallback);
      case Answered(t) =>
        var responseText := Text.PyStrip(t);
        var resultsDict := SuperResilientJsonParser(responseText, pat);
        if resultsDict.Some? {
          var summaries := SummaryBatch.MapResults(resultsDict.value, batch, ids, JString(""));
          if summaries.Some? {
            o := SummaryBatch.Finished(summaries.value);
          } else {
            o := SummaryBatch.TryAgain(false);
          }
        } else {
          var summaries := LastResort(responseText, batch, pat);
          o := SummaryBatch.Finished(summaries);
        }
    }
  }

  // ---------------------------------------------------------------------
  // process_batch

  /** The key pool's part in one attempt: `wait_if_needed`, and when a key is
      ready and the call returned (`returned`), `record_request` at `stamp`. */
  method Acquire(km: KeyManager.APIKeyManager, now: int, later: int, stamp: int, returned: bool) returns (ready: bool)
    requires km.Valid()
    modifies km`usage, km`currentKeyIndex
    ensures km.Valid()
    ensures KeyManager.FirstAllowed(km.keys, old(km.usage), km.limits, old(km.currentKeyIndex), 0, now).Some? ==> ready
    ensures later == now ==> ready == KeyManager.FirstAllowed(km.keys, old(km.usage), km.limits, old(km.currentKeyIndex), 0, now).Some?
  {
    ready := km.WaitIfNeeded(now, later);
    if ready && returned {
      km.RecordRequest(stamp);
    }
  }

  /** One attempt of the retry loop: wait for a key; when one is ready, the
      reply is recorded (when the call returned) and decided, and a quota
      error moves to the next key. */
  method OneAttempt(km: KeyManager.APIKeyManager, reply: SummaryBatch.Reply, now: int, later: int, stamp: int,
                    batch: seq<string>, ids: seq<string>, pat: Patterns)
    returns (ready: bool, outcome: SummaryBatch.Outcome)
    requires km.Valid()
    modifies km`usage, km`currentKeyIndex
    ensures km.Valid()
    ensures ready ==> outcome == AttemptOutcome(reply, batch, ids, pat)
  {
    ready := Acquire(km, now, later, stamp, !reply.CallFailed?);
    outcome := SummaryBatch.TryAgain(false);
    if ready {
      outcome := RunAttempt(reply, batch, ids, pat);
      if outcome.TryAgain? && outcome.switchKey {
        km.SwitchApiKey();
      }
    }
  }

  /** The first `n` attempts of call `call` all asked to go round again. */
  predicate Retried(model: (nat, string, nat) -> SummaryBatch.Reply, call: nat, prompt: string,
                    batch: seq<string>, ids: seq<string>, pat: Patterns, n: nat) {
    forall a :: 0 <= a < n ==> AttemptOutcome(model(call, prompt, a), batch, ids, pat).TryAgain?
  }

  lemma RetriedStep(model: (nat, string, nat) -> SummaryBatch.Reply, call: nat, prompt: string,
                    batch: seq<string>, ids: seq<string>, pat: Patterns, n: nat)
    requires Retried(model, call, prompt, batch, ids, pat, n)
    requires AttemptOutcome(model(call, prompt, n), batch, ids, pat).TryAgain?
    ensures Retried(model, call, prompt, batch, ids, pat, n + 1)
  {
  }

  /** The retry loop of `process_batch` for a batch that is sent as it is. Each
      attempt waits for a key (its clock readings are `clock(call, attempt)`:
      the scan, the scan after the pause, and the time the request is
      recorded), asks the model (`model(call, prompt, attempt)`), records the
      request when the call returned, and decides. `tried` counts the attempts
      that asked to go round again; when every key is spent the batch ends
      with no summaries (`exhausted`); after three retries, with the give-up
      placeholder for every post. */
  method SummarizeLeaf(km: KeyManager.APIKeyManager, batch: seq<string>, ids: seq<string>, prompt: string, pat: Patterns,
                       model: (nat, string, nat) -> SummaryBatch.Reply, clock: (nat, nat) -> (int, int, int), call: nat)
    returns (r: map<string, Json>, exhausted: bool, tried: nat)
    requires km.Valid()
    modifies km`usage, km`currentKeyIndex
    ensures km.Valid()
    ensures tried <= RetryAttempts
    ensures Retried(model, call, prompt, batch, ids, pat, tried)
    ensures exhausted ==> tried < RetryAttempts && r == map[]
    ensures !exhausted && tried < RetryAttempts ==> AttemptOutcome(model(call, prompt, tried), batch, ids, pat) == SummaryBatch.Finished(r)
    ensures !exhausted && tried == RetryAttempts ==> r == SummaryBatch.Uniform(batch, JString(GaveUpSummary))
    ensures r == SummaryBatch.Ending(Outcomes(model, call, prompt, batch, ids, pat), 0, if exhausted then tried else RetryAttempts,
                                     SummaryBatch.Uniform(batch, JString(GaveUpSummary)))
  {
    var attempt := 0;
    while attempt < RetryAttempts
      invariant km.Valid() && attempt <= RetryAttempts
      invariant Retried(model, call, prompt, batch, ids, pat, attempt)
    {
      var (now, later, stamp) := clock(call, attempt);
      var ready, outcome := OneAttempt(km, model(call, prompt, attempt), now, later, stamp, batch, ids, pat);
      if !ready {
        SummaryBatch.EndingAfter(Outcomes(model, call, prompt, batch, ids, pat), attempt, attempt, SummaryBatch.Uniform(batch, JString(GaveUpSummary)));
        return map[], true, attempt;
      }
      if outcome.Finished? {
        SummaryBatch.EndingAfter(Outcomes(model, call, prompt, batch, ids, pat), attempt, RetryAttempts, SummaryBatch.Uniform(batch, JString(GaveUpSummary)));
        return outcome.summaries, false, attempt;
      }
      RetriedStep(model, call, prompt, batch, ids, pat, attempt);
      attempt := attempt + 1;
    }
    r := SummaryBatch.Fallback(batch, JString(GaveUpSummary));
    exhausted := false;
    tried := RetryAttempts;
    SummaryBatch.EndingAfter(Outcomes(model, call, prompt, batch, ids, pat), tried, RetryAttempts, r);
  }

  /** The outcome of each attempt of call `call`. */
  function Outcomes(model: (nat, string, nat) -> SummaryBatch.Reply, call: nat, prompt: string,
                    batch: seq<string>, ids: seq<string>, pat: Patterns): (r: seq<SummaryBatch.Outcome>)
    ensures |r| == RetryAttempts
    ensures forall a :: 0 <= a < RetryAttempts ==> r[a] == AttemptOutcome(model(call, prompt, a), batch, ids, pat)
  {
    seq(RetryAttempts, a requires 0 <= a => AttemptOutcome(model(call, prompt, a), batch, ids, pat))
  }

  /** The prompt a batch sent as it is goes out with. */
  function LeafPrompt(leaf: seq<string>, redact: string -> string): string {
    Text.Join(SummaryBatch.PromptEntries(
      if leaf != [] && SummaryBatch.TooLarge(leaf, Cleaner(redact), MaxTokens, PromptFrame)
      then [SummaryBatch.Shorten(leaf[0], |leaf[0]| / 2)] else leaf,
      Cleaner(redact), MaxTokens), "\n\n")
  }

  /** What a batch sent as it is ends with, numbered `call`, when its attempt
      `cut` finds no key ready. */
  function LeafSummaries(model: (nat, string, nat) -> SummaryBatch.Reply, pat: Patterns, redact: string -> string)
    : (seq<string>, nat, nat) -> map<string, Json>
  {
    (leaf: seq<string>, call: nat, cut: nat) =>
      var prompt := LeafPrompt(leaf, redact);
      SummaryBatch.Ending(Outcomes(model, call, prompt, leaf, SummaryBatch.BatchIds(|leaf|), pat), 0, cut,
                          SummaryBatch.Uniform(leaf, JString(GaveUpSummary)))
  }

  /** The prompt `process_batch` builds for a non-empty batch, and whether it
      halves the batch instead: the entries are those of the batch itself, or,
      for a single post over budget, of its first half followed by "...". */
  method PlanBatch(batch: seq<string>, redact: string -> string) returns (split: bool, prompt: string, ids: seq<string>)
    requires batch != []
    ensures split <==> |batch| > 1 && SummaryBatch.TooLarge(batch, Cleaner(redact), MaxTokens, PromptFrame)
    ensures split ==> (SummaryBatch.Leaves(batch, Cleaner(redact), MaxTokens, PromptFrame)
                       == SummaryBatch.Leaves(batch[..|batch| / 2], Cleaner(redact), MaxTokens, PromptFrame)
                          + SummaryBatch.Leaves(batch[|batch| / 2..], Cleaner(redact), MaxTokens, PromptFrame))
    ensures !split ==> SummaryBatch.Leaves(batch, Cleaner(redact), MaxTokens, PromptFrame) == [batch]
    ensures !split ==> ids == SummaryBatch.BatchIds(|batch|)
    ensures !split ==> prompt == LeafPrompt(batch, redact)
  {
    var formatted;
    formatted, ids := SummaryBatch.CreateBatchPrompt(batch, Cleaner(redact), MaxTokens);
    SummaryBatch.LeavesStep(batch, Cleaner(redact), MaxTokens, PromptFrame, PromptFrame + |formatted|);
    split := false;
    prompt := formatted;
    if Tokens.EstimateLength(PromptFrame + |formatted|) > MaxTokens {
      if |batch| <= 1 {
        var shortened := SummaryBatch.Shorten(batch[0], |batch[0]| / 2);
        prompt, ids := SummaryBatch.CreateBatchPrompt([shortened], Cleaner(redact), MaxTokens);
      } else {
        split := true;
      }
    }
  }

  /** `process_batch`: an empty batch has no summaries; a batch whose prompt is
      over budget is halved and each half processed in turn (the second half's
      summaries win on a repeated post), except a single post, which is sent
      with its first half only; a batch within budget is sent as it is. The
      batches sent are numbered from `call` in order, and `next` is the number
      after the last one. */
  method ProcessBatch(km: KeyManager.APIKeyManager, batch: seq<string>, redact: string -> string, pat: Patterns,
                      model: (nat, string, nat) -> SummaryBatch.Reply, clock: (nat, nat) -> (int, int, int), call: nat)
    returns (r: map<string, Json>, next: nat, ghost cuts: seq<nat>)
    requires km.Valid()
    modifies km`usage, km`currentKeyIndex
    ensures km.Valid()
    ensures forall k :: k in r ==> k in batch
    ensures |cuts| == |SummaryBatch.Leaves(batch, Cleaner(redact), MaxTokens, PromptFrame)|
    ensures r == SummaryBatch.Merged(SummaryBatch.SentWith(LeafSummaries(model, pat, redact),
                                       SummaryBatch.Leaves(batch, Cleaner(redact), MaxTokens, PromptFrame), call, cuts))
    ensures next == call + |SummaryBatch.Leaves(batch, Cleaner(redact), MaxTokens, PromptFrame)|
    decreases |batch|, 1
  {
    if |batch| == 0 {
      return map[], call, [];
    }
    var split, prompt, ids := PlanBatch(batch, redact);
    if split {
      r, next, cuts := ProcessHalves(km, batch, redact, pat, model, clock, call);
    } else {
      r, next, cuts := ProcessLeaf(km, batch, ids, prompt, redact, pat, model, clock, call);
    }
  }

  /** A batch within budget, sent as it is. */
  method ProcessLeaf(km: KeyManager.APIKeyManager, batch: seq<string>, ids: seq<string>, prompt: string,
                     redact: string -> string, pat: Patterns,
                     model: (nat, string, nat) -> SummaryBatch.Reply, clock: (nat, nat) -> (int, int, int), call: nat)
    returns (r: map<string, Json>, next: nat, ghost cuts: seq<nat>)
    requires km.Valid() && batch != []
    requires SummaryBatch.Leaves(batch, Cleaner(redact), MaxTokens, PromptFrame) == [batch]
    requires ids == SummaryBatch.BatchIds(|batch|) && prompt == LeafPrompt(batch, redact)
    modifies km`usage, km`currentKeyIndex
    ensures km.Valid()
    ensures forall k :: k in r ==> k in batch
    ensures |cuts| == |SummaryBatch.Leaves(batch, Cleaner(redact), MaxTokens, PromptFrame)|
    ensures r == SummaryBatch.Merged(SummaryBatch.SentWith(LeafSummaries(model, pat, redact),
                                       SummaryBatch.Leaves(batch, Cleaner(redact), MaxTokens, PromptFrame), call, cuts))
    ensures next == call + |SummaryBatch.Leaves(batch, Cleaner(redact), MaxTokens, PromptFrame)|
  {
    var exhausted, tried;
    r, exhausted, tried := SummarizeLeaf(km, batch, ids, prompt, pat, model, clock, call);
    next := call + 1;
    cuts := [if exhausted then tried else RetryAttempts];
    SummaryBatch.LeafMergedWith(LeafSummaries(model, pat, redact), batch, call, cuts[0], r);
  }

  /** The halves of a batch over budget, each processed in turn, the second
      half's summaries winning on a repeated post. */
  method ProcessHalves(km: KeyManager.APIKeyManager, batch: seq<string>, redact: string -> string, pat: Patterns,
                       model: (nat, string, nat) -> SummaryBatch.Reply, clock: (nat, nat) -> (int, int, int), call: nat)
    returns (r: map<string, Json>, next: nat, ghost cuts: seq<nat>)
    requires km.Valid() && |batch| > 1
    requires SummaryBatch.Leaves(batch, Cleaner(redact), MaxTokens, PromptFrame)
             == SummaryBatch.Leaves(batch[..|batch| / 2], Cleaner(redact), MaxTokens, PromptFrame)
                + SummaryBatch.Leaves(batch[|batch| / 2..], Cleaner(redact), MaxTokens, PromptFrame)
    modifies km`usage, km`currentKeyIndex
    ensures km.Valid()
    ensures forall k :: k in r ==> k in batch
    ensures |cuts| == |SummaryBatch.Leaves(batch, Cleaner(redact), MaxTokens, PromptFrame)|
    ensures r == SummaryBatch.Merged(SummaryBatch.SentWith(LeafSummaries(model, pat, redact),
                                       SummaryBatch.Leaves(batch, Cleaner(redact), MaxTokens, PromptFrame), call, cuts))
    ensures next == call + |SummaryBatch.Leaves(batch, Cleaner(redact), MaxTokens, PromptFrame)|
    decreases |batch|, 0
  {
    var mid := |batch| / 2;
    var results1, n1, cuts1 := ProcessBatch(km, batch[..mid], redact, pat, model, clock, call);
    var results2, n2, cuts2 := ProcessBatch(km, batch[mid..], redact, pat, model, clock, n1);
    SummaryBatch.SplitMergedWith(LeafSummaries(model, pat, redact), SummaryBatch.Leaves(batch[..mid], Cleaner(redact), MaxTokens, PromptFrame),
                                 SummaryBatch.Leaves(batch[mid..], Cleaner(redact), MaxTokens, PromptFrame), call, n1, cuts1, cuts2,
                                 results1, results2);
    r, next, cuts := results1 + results2, n2, cuts1 + cuts2;
  }
}
