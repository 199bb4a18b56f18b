/** The batch post summariser of labeling/04_post_summarizer.py: the text
    clean-up before prompting, the batch prompt (ids, per-post truncation), the
    halving of an over-budget batch, the fenced-JSON extraction, the fallback
    dictionaries, the retry loop with its key rotation, `format_summary`, and
    `main_batch`: the unique posts in batches of five, the comparison text, the
    summary column and the success count.

    The remote model is a reply per call and attempt, `json.loads` a partial
    function, and Python's `str()` of a non-string value a parameter (`str`). */
module PostSummarizer {
  import opened Wrappers
  import opened JsonValues
  import Text
  import Tokens
  import Frames
  import SummaryBatch
  import Summarize
  import Comparison

  const Model: string := "gemini-2.0-flash"
  const BatchSize: nat := 5
  const MaxTokens: nat := 3000
  const RetryAttempts: nat := 3

  /** The characters `OPTIMIZED_PROMPT` adds around the entries once formatted
      (668 characters as written, less the 14 of the placeholder and the 10
      doubled braces that formatting halves). */
  const PromptFrame: nat := 644

  // ---------------------------------------------------------------------
  // clean_text

  /** `clean_text` on a string: strip, then '"' becomes "'" and line breaks
      become spaces (NFC normalisation is not modelled). */
  function CleanText(text: string): (r: string)
    ensures |r| == |Text.PyStrip(text)|
    ensures forall i :: 0 <= i < |r| ==> r[i] != '"' && r[i] != '\n' && r[i] != '\r'
    ensures forall i :: 0 <= i < |r| ==>
              var c := Text.PyStrip(text)[i];
              c != '"' && c != '\n' && c != '\r' ==> r[i] == c
  {
    Text.ReplaceChar(Text.ReplaceChar(Text.ReplaceChar(Text.PyStrip(text), '"', '\''), '\n', ' '), '\r', ' ')
  }

  /** A cleaned text is clean: it has no whitespace at either end and none of
      the replaced characters, so cleaning it again changes nothing. */
  lemma CleanTextIdempotent(text: string)
    ensures CleanText(CleanText(text)) == CleanText(text)
  {
    var s := Text.PyStrip(text);
    var r := CleanText(text);
    if r != [] {
      assert !Text.IsPySpace(s[0]) && !Text.IsPySpace(s[|s| - 1]);
      assert !Text.IsPySpace(r[0]) && !Text.IsPySpace(r[|r| - 1]);
    }
    Text.StripByUnchanged(r, Text.IsPySpace);
    assert Text.ReplaceChar(r, '"', '\'') == r;
    assert Text.ReplaceChar(r, '\n', ' ') == r;
    assert Text.ReplaceChar(r, '\r', ' ') == r;
  }

  // ---------------------------------------------------------------------
  // The batch prompt and the halving

  /** The prompt `process_batch` sends for a non-empty batch, and whether it
      halves the batch instead: the entries are those of the batch itself, or,
      for a single post over budget, of its first half followed by "...". */
  method PlanBatch(batch: seq<string>) returns (split: bool, prompt: string, ids: seq<string>)
    requires batch != []
    ensures split <==> |batch| > 1 && SummaryBatch.TooLarge(batch, CleanText, MaxTokens, PromptFrame)
    ensures split ==> (SummaryBatch.Leaves(batch, CleanText, MaxTokens, PromptFrame)
                       == SummaryBatch.Leaves(batch[..|batch| / 2], CleanText, MaxTokens, PromptFrame)
                          + SummaryBatch.Leaves(batch[|batch| / 2..], CleanText, MaxTokens, PromptFrame))
    ensures !split ==> SummaryBatch.Leaves(batch, CleanText, MaxTokens, PromptFrame) == [batch]
    ensures !split ==> ids == SummaryBatch.BatchIds(|batch|)
    ensures !split ==> prompt == LeafPrompt(batch)
  {
    var formatted;
    formatted, ids := SummaryBatch.CreateBatchPrompt(batch, CleanText, MaxTokens);
    SummaryBatch.LeavesStep(batch, CleanText, MaxTokens, PromptFrame, PromptFrame + |formatted|);
    split := false;
    prompt := formatted;
    if Tokens.EstimateLength(PromptFrame + |formatted|) > MaxTokens {
      if |batch| <= 1 {
        var shortened := SummaryBatch.Shorten(batch[0], |batch[0]| / 2);
        prompt, ids := SummaryBatch.CreateBatchPrompt([shortened], CleanText, MaxTokens);
      } else {
        split := true;
      }
    }
  }

  // ---------------------------------------------------------------------
  // The fenced JSON

  /** The text handed to `json.loads`: between the first "```json" and the
      last "```" (stripped) when the last comes after the first, else the
      whole response; then every "```" removed and the result stripped. */
  function ExtractJson(text: string): string {
    Summarize.Unfence(FencedBody(text))
  }

  /** The part of the response kept before removing fences. */
  function FencedBody(text: string): string {
    match (Text.Find(text, "```json"), Text.FindLast(text, "```"))
    case (Some(i), Some(j)) => if j > i then Text.PyStrip(Summarize.Slice(text, i + 7, j)) else text
    case _ => text
  }

  /** No backquote-led pattern occurs in a text without backquotes. */
  lemma NoTickNoPattern(s: string, p: string)
    requires Summarize.NoBackquote(s) && |p| > 0 && p[0] == '`'
    ensures Text.Find(s, p).None?
  {
    forall j | 0 <= j <= |s|
      ensures !Text.OccursAt(s, p, j)
    {
      if j < |s| {
        Summarize.NotAtTick(s, p, j);
      }
    }
  }

  /** A fenced block is recovered exactly (up to surrounding whitespace): the
      text has "```json" at `a` and "```" `n` characters after it, with no
      backquote before the opening fence, inside the block or after the
      closing fence. */
  lemma ExtractJsonFenced(text: string, a: nat, n: nat)
    requires a + 7 + n + 3 <= |text|
    requires text[a..a + 7] == "```json" && text[a + 7 + n..a + 7 + n + 3] == "```"
    requires Summarize.NoBackquote(text[..a]) && Summarize.NoBackquote(text[a + 7..a + 7 + n])
    requires Summarize.NoBackquote(text[a + 7 + n + 3..])
    ensures ExtractJson(text) == Text.PyStrip(text[a + 7..a + 7 + n])
  {
    var open, close := "```json", "```";
    var c := a + 7 + n;
    var body := text[a + 7..a + 7 + n];
    assert |open| == 7 && open[0] == '`' && |close| == 3;
    assert text[0..a] == text[..a];
    Summarize.FirstTickPattern(text, open, 0, a);
    LastFence(text, c);
    assert Text.Find(text, open) == Some(a) && Text.FindLast(text, close) == Some(c) && c > a;
    assert Summarize.Slice(text, a + 7, c) == body;
    assert FencedBody(text) == Text.PyStrip(body);
    Summarize.StripWithoutFences(body);
    assert ExtractJson(text) == Summarize.Unfence(Text.PyStrip(body));
  }

  /** A fence with no backquote after it is the last fence. */
  lemma LastFence(text: string, c: nat)
    requires c + 3 <= |text| && text[c..c + 3] == "```"
    requires Summarize.NoBackquote(text[c + 3..])
    ensures Text.FindLast(text, "```") == Some(c)
  {
    forall j | c < j <= |text|
      ensures !Text.OccursAt(text, "```", j)
    {
      if j + 3 <= |text| {
        var m := if j < c + 3 then c + 3 else j;
        assert text[c + 3..][m - c - 3] == text[m];
        assert text[j..j + 3][m - j] == text[m];
      }
    }
    Text.LastBelowIs(text, "```", c, |text| + 1);
  }

  /** A response without backquotes is decoded as it is, stripped. */
  lemma ExtractJsonPlain(text: string)
    requires Summarize.NoBackquote(text)
    ensures ExtractJson(text) == Text.PyStrip(text)
  {
    NoTickNoPattern(text, "```json");
    Summarize.NoTickNoFence(text);
  }

  // ---------------------------------------------------------------------
  // The fallbacks

  const ErrorProblem: string := "Lỗi xử lý"
  const UnknownVerdict: string := "Không xác định do lỗi xử lý"
  const GaveUpContent: string := "Không thể tóm tắt sau nhiều lần thử"

  /** `s[:n]`. */
  function Prefix(s: string, n: nat): (r: string)
    ensures |r| <= n && |r| <= |s| && r == s[..|r|]
    ensures |s| <= n ==> r == s
  {
    if |s| <= n then s else s[..n]
  }

  /** The three-member dictionary a post gets when the reply is not JSON: its
      content note quotes the first 50 characters of the response. */
  function JsonErrorFallback(responseText: string): Json {
    JObject([("nội_dung", JString("Không thể phân tích JSON từ response. Raw: " + Prefix(responseText, 50) + "...")),
             ("vấn_đề", JString(ErrorProblem)),
             ("phản_động", JString(UnknownVerdict))])
  }

  /** The three-member dictionary every post gets after the last failed attempt. */
  const GaveUpFallback: Json :=
    JObject([("nội_dung", JString(GaveUpContent)), ("vấn_đề", JString("Lỗi API")), ("phản_động", JString(UnknownVerdict))])

  // ---------------------------------------------------------------------
  // One attempt

  /** What one attempt decides from the model's reply: a failed call, a blocked
      reply or an unreadable text raises inside the attempt and is retried; a
      text is stripped and its JSON part decoded; text that does not decode
      gives every post the JSON-error dictionary, and a decoded reply is mapped
      onto the batch (`{}` for a result without a summary), unless the mapping
      raises, which is retried. */
  function AttemptOutcome(reply: SummaryBatch.Reply, batch: seq<string>, ids: seq<string>,
                          loads: string -> Option<Json>): (o: SummaryBatch.Outcome)
    ensures o.Finished? ==> forall k :: k in o.summaries ==> k in batch
    ensures o.TryAgain? ==> !o.switchKey
    ensures !reply.Answered? ==> o.TryAgain?
  {
    match reply
    case Answered(t) =>
      var responseText := Text.PyStrip(t);
      (match loads(ExtractJson(responseText))
       case None => SummaryBatch.Finished(SummaryBatch.Uniform(batch, JsonErrorFallback(responseText)))
       case Some(j) =>
         (match SummaryBatch.MappedResults(j, batch, ids, EmptyObject)
          case Some(m) => SummaryBatch.Finished(m)
          case None => SummaryBatch.TryAgain(false)))
    case _ => SummaryBatch.TryAgain(false)
  }

  /** Only a decoded reply can leave a post of the batch without a summary: an
      undecodable one gives every post the JSON-error dictionary. */
  lemma AttemptCovers(reply: SummaryBatch.Reply, batch: seq<string>, ids: seq<string>, loads: string -> Option<Json>, k: string)
    requires AttemptOutcome(reply, batch, ids, loads).Finished? && k in batch
    ensures reply.Answered?
    ensures var responseText := Text.PyStrip(reply.text);
            k !in AttemptOutcome(reply, batch, ids, loads).summaries ==> loads(ExtractJson(responseText)).Some?
    ensures var responseText := Text.PyStrip(reply.text);
            loads(ExtractJson(responseText)).None? ==>
              AttemptOutcome(reply, batch, ids, loads).summaries[k] == JsonErrorFallback(responseText)
  {
  }

  /** One attempt's handling of the reply, as written. */
  method RunAttempt(reply: SummaryBatch.Reply, batch: seq<string>, ids: seq<string>, loads: string -> Option<Json>)
    returns (o: SummaryBatch.Outcome)
    ensures o == AttemptOutcome(reply, batch, ids, loads)
  {
    match reply {
      case Answered(t) =>
        var responseText := Text.PyStrip(t);
        var jsonText := ExtractJson(responseText);
        var resultsDict := loads(jsonText);
        if resultsDict.None? {
          var fallback := SummaryBatch.Fallback(batch, JsonErrorFallback(responseText));
          o := SummaryBatch.Finished(fallback);
        } else {
          var summaries := SummaryBatch.MapResults(resultsDict.value, batch, ids, EmptyObject);
          if summaries.Some? {
            o := SummaryBatch.Finished(summaries.value);
          } else {
            o := SummaryBatch.TryAgain(false);
          }
        }
      case _ =>
        o := SummaryBatch.TryAgain(false);
    }
  }

  // ---------------------------------------------------------------------
  // The key rotation and the retry loop

  /** `itertools.cycle(API_KEYS)` with `set_next_key`: the keys are handed out
      in turn, round and round, and `configured` is the key the client was
      last configured with. */
  class KeyCycle {
    const keys: seq<string>
    var position: nat
    var configured: string

    predicate Valid()
      reads this
    {
      |keys| > 0 && position < |keys|
    }

    constructor (keys: seq<string>)
      requires |keys| > 0
      ensures Valid() && this.keys == keys && position == 0 && configured == ""
    {
      this.keys := keys;
      position := 0;
      configured := "";
    }

    /** `set_next_key`: configure the client with the next key of the cycle. */
    method SetNextKey() returns (key: string)
      requires Valid()
      modifies this
      ensures Valid()
      ensures key == keys[old(position)] && configured == key
      ensures position == (old(position) + 1) % |keys|
    {
      key := keys[position];
      configured := key;
      position := (position + 1) % |keys|;
    }
  }

  /** The cycle position after `count` more keys have been taken from `position`. */
  function Advance(position: nat, count: nat, n: nat): nat
    requires n > 0
  {
    if count == 0 then position else (Advance(position, count - 1, n) + 1) % n
  }

  /** The first `n` attempts of call `call` all asked to go round again. */
  predicate Retried(model: (nat, string, nat) -> SummaryBatch.Reply, call: nat, prompt: string,
                    batch: seq<string>, ids: seq<string>, loads: string -> Option<Json>, n: nat) {
    forall a :: 0 <= a < n ==> AttemptOutcome(model(call, prompt, a), batch, ids, loads).TryAgain?
  }

  lemma RetriedStep(model: (nat, string, nat) -> SummaryBatch.Reply, call: nat, prompt: string,
                    batch: seq<string>, ids: seq<string>, loads: string -> Option<Json>, n: nat)
    requires Retried(model, call, prompt, batch, ids, loads, n)
    requires AttemptOutcome(model(call, prompt, n), batch, ids, loads).TryAgain?
    ensures Retried(model, call, prompt, batch, ids, loads, n + 1)
  {
  }

  /** The outcome of each attempt of call `call`. */
  function Outcomes(model: (nat, string, nat) -> SummaryBatch.Reply, call: nat, prompt: string,
                    batch: seq<string>, ids: seq<string>, loads: string -> Option<Json>): (r: seq<SummaryBatch.Outcome>)
    ensures |r| == RetryAttempts
    ensures forall a :: 0 <= a < RetryAttempts ==> r[a] == AttemptOutcome(model(call, prompt, a), batch, ids, loads)
  {
    seq(RetryAttempts, a requires 0 <= a => AttemptOutcome(model(call, prompt, a), batch, ids, loads))
  }

  /** The prompt a batch sent as it is goes out with. */
  function LeafPrompt(leaf: seq<string>): string {
    Text.Join(SummaryBatch.PromptEntries(
      if leaf != [] && SummaryBatch.TooLarge(leaf, CleanText, MaxTokens, PromptFrame)
      then [SummaryBatch.Shorten(leaf[0], |leaf[0]| / 2)] else leaf,
      CleanText, MaxTokens), "\n\n")
  }

  /** What a batch sent as it is ends with, numbered `call`. */
  function LeafSummaries(model: (nat, string, nat) -> SummaryBatch.Reply, loads: string -> Option<Json>)
    : (seq<string>, nat) -> map<string, Json>
  {
    (leaf: seq<string>, call: nat) =>
      var prompt := LeafPrompt(leaf);
      SummaryBatch.Ending(Outcomes(model, call, prompt, leaf, SummaryBatch.BatchIds(|leaf|), loads), 0, RetryAttempts,
                          SummaryBatch.Uniform(leaf, GaveUpFallback))
  }

  /** The retry loop of `process_batch` for a batch sent as it is: each attempt
      takes the next key of the cycle, asks the model (`model(call, prompt,
      attempt)`) and decides. `tried` counts the attempts that asked to go round
      again; after three of them every post gets the give-up dictionary. */
  method SummarizeLeaf(cycle: KeyCycle, batch: seq<string>, ids: seq<string>, prompt: string,
                       model: (nat, string, nat) -> SummaryBatch.Reply, loads: string -> Option<Json>, call: nat)
    returns (r: map<string, Json>, tried: nat)
    requires cycle.Valid()
    modifies cycle
    ensures cycle.Valid()
    ensures tried <= RetryAttempts
    ensures Retried(model, call, prompt, batch, ids, loads, tried)
    ensures tried < RetryAttempts ==> AttemptOutcome(model(call, prompt, tried), batch, ids, loads) == SummaryBatch.Finished(r)
    ensures tried == RetryAttempts ==> r == SummaryBatch.Uniform(batch, GaveUpFallback)
    ensures r == SummaryBatch.Ending(Outcomes(model, call, prompt, batch, ids, loads), 0, RetryAttempts,
                                     SummaryBatch.Uniform(batch, GaveUpFallback))
    ensures cycle.position == Advance(old(cycle.position), if tried < RetryAttempts then tried + 1 else RetryAttempts, |cycle.keys|)
  {
    var attempt := 0;
    while attempt < RetryAttempts
      invariant cycle.Valid() && attempt <= RetryAttempts
      invariant Retried(model, call, prompt, batch, ids, loads, attempt)
      invariant cycle.position == Advance(old(cycle.position), attempt, |cycle.keys|)
    {
      var key := cycle.SetNextKey();
      assert cycle.position == Advance(old(cycle.position), attempt + 1, |cycle.keys|);
      var outcome := RunAttempt(model(call, prompt, attempt), batch, ids, loads);
      if outcome.Finished? {
        SummaryBatch.EndingAfter(Outcomes(model, call, prompt, batch, ids, loads), attempt, RetryAttempts, SummaryBatch.Uniform(batch, GaveUpFallback));
        return outcome.summaries, attempt;
      }
      RetriedStep(model, call, prompt, batch, ids, loads, attempt);
      attempt := attempt + 1;
    }
    r := SummaryBatch.Fallback(batch, GaveUpFallback);
    tried := RetryAttempts;
    SummaryBatch.EndingAfter(Outcomes(model, call, prompt, batch, ids, loads), tried, RetryAttempts, r);
  }

  /** `process_batch`: an empty batch has no summaries; a batch whose prompt is
      over budget is halved and each half processed in turn (the second half's
      summaries win on a repeated post), except a single post, which is sent
      with its first half only; a batch within budget is sent as it is. The
      batches sent are numbered from `call` in order, and `next` is the number
      after the last one. */
  method ProcessBatch(cycle: KeyCycle, batch: seq<string>, model: (nat, string, nat) -> SummaryBatch.Reply,
                      loads: string -> Option<Json>, call: nat)
    returns (r: map<string, Json>, next: nat)
    requires cycle.Valid()
    modifies cycle
    ensures cycle.Valid()
    ensures forall k :: k in r ==> k in batch
    ensures r == SummaryBatch.Merged(SummaryBatch.Sent(LeafSummaries(model, loads), SummaryBatch.Leaves(batch, CleanText, MaxTokens, PromptFrame), call))
    ensures next == call + |SummaryBatch.Leaves(batch, CleanText, MaxTokens, PromptFrame)|
    decreases |batch|, 1
  {
    if |batch| == 0 {
      return map[], call;
    }
    var split, prompt, ids := PlanBatch(batch);
    if split {
      r, next := ProcessHalves(cycle, batch, model, loads, call);
      return;
    }
    var tried;
    r, tried := SummarizeLeaf(cycle, batch, ids, prompt, model, loads, call);
    next := call + 1;
    SummaryBatch.LeafMerged(LeafSummaries(model, loads), batch, call, r);
  }

  /** The halves of a batch over budget, each processed in turn, the second
      half's summaries winning on a repeated post. */
  method ProcessHalves(cycle: KeyCycle, batch: seq<string>, model: (nat, string, nat) -> SummaryBatch.Reply,
                       loads: string -> Option<Json>, call: nat)
    returns (r: map<string, Json>, next: nat)
    requires cycle.Valid() && |batch| > 1
    requires SummaryBatch.Leaves(batch, CleanText, MaxTokens, PromptFrame)
             == SummaryBatch.Leaves(batch[..|batch| / 2], CleanText, MaxTokens, PromptFrame)
                + SummaryBatch.Leaves(batch[|batch| / 2..], CleanText, MaxTokens, PromptFrame)
    modifies cycle
    ensures cycle.Valid()
    ensures forall k :: k in r ==> k in batch
    ensures r == SummaryBatch.Merged(SummaryBatch.Sent(LeafSummaries(model, loads), SummaryBatch.Leaves(batch, CleanText, MaxTokens, PromptFrame), call))
    ensures next == call + |SummaryBatch.Leaves(batch, CleanText, MaxTokens, PromptFrame)|
    decreases |batch|, 0
  {
    var mid := |batch| / 2;
    var results1, n1 := ProcessBatch(cycle, batch[..mid], model, loads, call);
    var results2, n2 := ProcessBatch(cycle, batch[mid..], model, loads, n1);
    SummaryBatch.SplitMerged(LeafSummaries(model, loads), SummaryBatch.Leaves(batch[..mid], CleanText, MaxTokens, PromptFrame),
                             SummaryBatch.Leaves(batch[mid..], CleanText, MaxTokens, PromptFrame), call, n1, results1, results2);
    r, next := results1 + results2, n2;
  }

  // ---------------------------------------------------------------------
  // format_summary

  const NoInformation: string := "Không có thông tin"
  const ContentLead: string := "1. Nội dung sơ lược: "

  /** What the f-string shows for a member of the summary: a string as it is,
      anything else as `str` renders it, "Không có thông tin" when missing. */
  function FieldText(items: seq<(string, Json)>, key: string, str: Json -> string): string {
    match GetOr(items, key, JString(NoInformation))
    case JString(s) => s
    case v => str(v)
  }

  /** The three numbered sections. */
  function Sections(content: string, problem: string, verdict: string): string {
    ContentLead + content + "\n\n2. Vấn đề: " + problem + "\n\n3. Phản động/tin giả: " + verdict
  }

  /** The summaries `format_summary` can render without raising: a false value,
      or a dictionary. */
  predicate Formattable(summary: Json) {
    !Truthy(summary) || summary.JObject?
  }

  /** `format_summary`: the failure marker for a false value (an empty
      dictionary, string or list, null), the three sections for a dictionary,
      and None where `.get` on another true value raises. */
  function FormatSummary(summary: Json, str: Json -> string): (r: Option<string>)
    ensures r.Some? <==> Formattable(summary)
    ensures !Truthy(summary) ==> r == Some(Summarize.MissingSummary)
  {
    if !Truthy(summary) then Some(Summarize.MissingSummary)
    else if summary.JObject? then
      Some(Sections(FieldText(summary.items, "nội_dung", str), FieldText(summary.items, "vấn_đề", str),
                    FieldText(summary.items, "phản_động", str)))
    else None
  }

  /** A rendered summary opens with the first section exactly when it renders a
      non-empty dictionary: the failure marker cannot be mistaken for one. */
  lemma FormatSummaryTells(summary: Json, str: Json -> string)
    requires Formattable(summary)
    ensures var r := FormatSummary(summary, str).value;
            (|ContentLead| <= |r| && r[..|ContentLead|] == ContentLead) <==> summary.JObject? && summary.items != []
  {
    var r := FormatSummary(summary, str).value;
    if !Truthy(summary) {
      assert r[0] != ContentLead[0];
    } else {
      assert r == ContentLead + (r[|ContentLead|..]);
    }
  }

  /** A dictionary without any of the three members renders "Không có thông tin" three times. */
  lemma FormatSummaryDefaults(items: seq<(string, Json)>, str: Json -> string)
    requires items != []
    requires forall i :: 0 <= i < |items| ==> items[i].0 != "nội_dung" && items[i].0 != "vấn_đề" && items[i].0 != "phản_động"
    ensures FormatSummary(JObject(items), str) == Some(Sections(NoInformation, NoInformation, NoInformation))
  {
  }

  /** A post whose batch gave up is shown with the give-up note, the API error
      and the unknown verdict. */
  lemma FormatGaveUp(str: Json -> string)
    ensures FormatSummary(GaveUpFallback, str) == Some(Sections(GaveUpContent, "Lỗi API", UnknownVerdict))
  {
    var items := GaveUpFallback.items;
    var two, one := items[..2], items[..1];
    assert two[..1] == one;
    assert Get(items, "phản_động") == Some(JString(UnknownVerdict));
    assert Get(items, "vấn_đề") == Get(two, "vấn_đề") == Some(JString("Lỗi API"));
    assert Get(items, "nội_dung") == Get(two, "nội_dung") == Get(one, "nội_dung") == Some(JString(GaveUpContent));
  }

  // ---------------------------------------------------------------------
  // main_batch

  /** The header of the comparison text; `now` is the rendered timestamp. */
  function Header(now: string, count: nat): (r: seq<string>)
    ensures |r| == 7 && r[0] == Comparison.Rule && r[5] == Comparison.Rule && r[6] == ""
  {
    [Comparison.Rule,
     "GEMINI " + Text.Upper(Model) + " - BATCH SUMMARIZATION RESULTS",
     "Generated on: " + now,
     "Total posts: " + Text.NatToString(count),
     "Batch size: " + Text.NatToString(BatchSize),
     Comparison.Rule,
     ""]
  }

  /** `[posts[i:i+5] for i in range(0, len(posts), 5)]`, as the loop builds it. */
  method MakeBatches(posts: seq<string>) returns (batches: seq<seq<string>>)
    ensures batches == Frames.Chunks(posts, BatchSize)
  {
    batches := [];
    var i := 0;
    while i < |posts|
      invariant i <= |posts|
      invariant Frames.Chunks(posts, BatchSize) == batches + Frames.Chunks(posts[i..], BatchSize)
      decreases |posts| - i
    {
      var end := if i + BatchSize <= |posts| then i + BatchSize else |posts|;
      Frames.ChunksFrom(posts, BatchSize, i, end);
      assert batches + ([posts[i..end]] + Frames.Chunks(posts[end..], BatchSize))
             == (batches + [posts[i..end]]) + Frames.Chunks(posts[end..], BatchSize);
      batches := batches + [posts[i..end]];
      i := end;
    }
    assert posts[i..] == [];
  }

  /** The summary a post has in the text loop: `batch_results.get(post, {})`. */
  function Entry(summaries: map<string, Json>, post: string): Json {
    Comparison.Lookup(summaries, post).GetOr(EmptyObject)
  }

  /** `format_summary` raises on the post's summary. */
  predicate Fails(summaries: map<string, Json>, post: string) {
    !Formattable(Entry(summaries, post))
  }

  /** What the comparison text shows for a post: its summary, rendered. */
  function Display(str: Json -> string, entry: Option<Json>): string {
    match FormatSummary(entry.GetOr(EmptyObject), str)
    case Some(s) => s
    case None => ""
  }

  function Show(str: Json -> string): Option<Json> -> string {
    entry => Display(str, entry)
  }

  /** The blocks `main_batch` writes for one batch, numbered from `first`; it
      stops (`crashed`) at the first post whose summary `format_summary`
      cannot render. */
  method ListBatch(first: nat, batch: seq<string>, results: map<string, Json>, str: Json -> string)
    returns (lines: seq<string>, crashed: bool)
    ensures crashed ==> exists i :: 0 <= i < |batch| && Fails(results, batch[i])
    ensures !crashed ==> forall i :: 0 <= i < |batch| ==> !Fails(results, batch[i])
    ensures !crashed ==> lines == Comparison.Blocks(first, batch, Comparison.Shown(batch, results, Show(str)))
  {
    ghost var shown := Comparison.Shown(batch, results, Show(str));
    lines := [];
    var j := 0;
    while j < |batch|
      invariant j <= |batch|
      invariant forall i :: 0 <= i < j ==> !Fails(results, batch[i])
      invariant lines == Comparison.Blocks(first, batch[..j], shown[..j])
    {
      var post := batch[j];
      var summaryDict := Entry(results, post);
      var formatted := FormatSummary(summaryDict, str);
      if formatted.None? {
        assert Fails(results, batch[j]);
        return lines, true;
      }
      assert !Fails(results, batch[j]);
      ghost var prev := lines;
      lines := lines + Comparison.BlockLines(first + j, post, formatted.value);
      ListStep(first, batch, results, str, j, shown, formatted.value, prev, lines);
      j := j + 1;
    }
    assert batch[..j] == batch && shown[..j] == shown;
    crashed := false;
  }

  /** A post whose summary renders adds its block after those of the posts before it. */
  lemma ListStep(first: nat, batch: seq<string>, results: map<string, Json>, str: Json -> string, j: nat,
                 shown: seq<string>, formatted: string, prev: seq<string>, next: seq<string>)
    requires j < |batch| && FormatSummary(Entry(results, batch[j]), str) == Some(formatted)
    requires shown == Comparison.Shown(batch, results, Show(str))
    requires prev == Comparison.Blocks(first, batch[..j], shown[..j])
    requires next == prev + Comparison.BlockLines(first + j, batch[j], formatted)
    ensures next == Comparison.Blocks(first, batch[..j + 1], shown[..j + 1])
  {
    Comparison.ShownAt(batch, results, Show(str), j);
    assert shown[j] == formatted;
    Comparison.BlocksSnoc(first, batch, shown, j);
  }

  /** Batch `b` of the post list follows the `b` full batches before it, and
      the last batch ends the list. */
  lemma BatchBounds(posts: seq<string>, b: nat)
    requires b < |Frames.Chunks(posts, BatchSize)|
    ensures b * BatchSize + |Frames.Chunks(posts, BatchSize)[b]| <= |posts|
    ensures Frames.Chunks(posts, BatchSize)[b] == posts[b * BatchSize..b * BatchSize + |Frames.Chunks(posts, BatchSize)[b]|]
    ensures b + 1 < |Frames.Chunks(posts, BatchSize)| ==> |Frames.Chunks(posts, BatchSize)[b]| == BatchSize
    ensures b + 1 == |Frames.Chunks(posts, BatchSize)| ==> b * BatchSize + |Frames.Chunks(posts, BatchSize)[b]| == |posts|
  {
    Frames.ChunkAt(posts, BatchSize, b);
    Frames.ChunksCount(posts, BatchSize);
    if b + 1 < |Frames.Chunks(posts, BatchSize)| {
      Frames.ChunkAt(posts, BatchSize, b + 1);
    }
  }

  /** One round of the batch loop: batch `b`, which starts at post `done`, is
      summarised, its summaries are merged in, and its blocks are appended to
      the text, numbered on from `done + 1`, unless one cannot be rendered. */
  method SummarizeNext(cycle: KeyCycle, posts: seq<string>, header: seq<string>, b: nat, done: nat,
                       all: map<string, Json>, txt: seq<string>, model: (nat, string, nat) -> SummaryBatch.Reply,
                       loads: string -> Option<Json>, str: Json -> string, call: nat)
    returns (merged: map<string, Json>, txt': seq<string>, end: nat, next: nat, crashed: bool)
    requires cycle.Valid() && Frames.Distinct(posts)
    requires b < |Frames.Chunks(posts, BatchSize)| && done == b * BatchSize && done <= |posts|
    requires forall k :: k in all ==> k in posts[..done] && Formattable(all[k])
    requires txt == header + Comparison.Blocks(1, posts[..done], Comparison.Shown(posts[..done], all, Show(str)))
    modifies cycle
    ensures cycle.Valid()
    ensures end <= |posts|
    ensures b + 1 < |Frames.Chunks(posts, BatchSize)| ==> end == (b + 1) * BatchSize
    ensures b + 1 == |Frames.Chunks(posts, BatchSize)| ==> end == |posts|
    ensures forall k :: k in merged ==> k in posts[..end]
    ensures crashed ==> exists k :: k in posts && Fails(merged, k)
    ensures !crashed ==> forall k :: k in merged ==> Formattable(merged[k])
    ensures !crashed ==> txt' == header + Comparison.Blocks(1, posts[..end], Comparison.Shown(posts[..end], merged, Show(str)))
  {
    var batch := Frames.Chunks(posts, BatchSize)[b];
    BatchBounds(posts, b);
    end := done + |batch|;
    var results;
    results, next := ProcessBatch(cycle, batch, model, loads, call);
    merged := all + results;
    Comparison.MergeKeys(posts, done, end, all, results);
    txt', crashed := ListMerged(posts, header, done, end, all, results, txt, str);
  }

  /** The text of one round: the batch from `done` to `end` listed with its
      own summaries after the text so far, unless one cannot be rendered;
      the text is then that of the posts up to `end` with the merged summaries. */
  method ListMerged(posts: seq<string>, header: seq<string>, done: nat, end: nat, all: map<string, Json>,
                    results: map<string, Json>, txt: seq<string>, str: Json -> string)
    returns (txt': seq<string>, crashed: bool)
    requires done <= end <= |posts| && Frames.Distinct(posts)
    requires forall k :: k in all ==> k in posts[..done] && Formattable(all[k])
    requires forall k :: k in results ==> k in posts[done..end]
    requires txt == header + Comparison.Blocks(1, posts[..done], Comparison.Shown(posts[..done], all, Show(str)))
    ensures crashed ==> exists k :: k in posts && Fails(all + results, k)
    ensures !crashed ==> forall k :: k in all + results ==> Formattable((all + results)[k])
    ensures !crashed ==> txt' == header + Comparison.Blocks(1, posts[..end], Comparison.Shown(posts[..end], all + results, Show(str)))
  {
    var lines;
    lines, crashed := ListBatch(done + 1, posts[done..end], results, str);
    txt' := txt;
    if crashed {
      CrashWitness(posts, done, end, all, results);
      return;
    }
    MergeFormattable(posts[done..end], all, results);
    Comparison.ExtendText(posts, header, done, end, all, results, txt, lines, Show(str));
    txt' := txt + lines;
  }

  /** A batch summary that cannot be rendered is one of the merged summaries. */
  lemma CrashWitness(posts: seq<string>, done: nat, end: nat, all: map<string, Json>, results: map<string, Json>)
    requires done <= end <= |posts|
    requires exists i :: 0 <= i < end - done && Fails(results, posts[done..end][i])
    ensures exists k :: k in posts && Fails(all + results, k)
  {
    var i :| 0 <= i < end - done && Fails(results, posts[done..end][i]);
    var k := posts[done..end][i];
    assert posts[done + i] == k;
    assert k in results;
    assert Entry(all + results, k) == Entry(results, k);
    assert k in posts && Fails(all + results, k);
  }

  /** Merging a batch's renderable summaries keeps every summary renderable. */
  lemma MergeFormattable(batch: seq<string>, all: map<string, Json>, results: map<string, Json>)
    requires forall k :: k in all ==> Formattable(all[k])
    requires forall k :: k in results ==> k in batch
    requires forall i :: 0 <= i < |batch| ==> !Fails(results, batch[i])
    ensures forall k :: k in all + results ==> Formattable((all + results)[k])
  {
    forall k | k in all + results
      ensures Formattable((all + results)[k])
    {
      if k in results {
        var i :| 0 <= i < |batch| && batch[i] == k;
        assert !Fails(results, batch[i]);
        assert Entry(results, k) == results[k];
      }
    }
  }

  /** The batch loop of `main_batch` over the unique posts (pairwise distinct):
      each batch's summaries are merged in and its posts listed with what that
      batch produced for them, until a summary cannot be rendered (`crashed`,
      when the run stops before writing anything). Since every post is in
      exactly one batch, the text shows each post with its merged summary. */
  method SummarizePosts(cycle: KeyCycle, posts: seq<string>, header: seq<string>,
                        model: (nat, string, nat) -> SummaryBatch.Reply, loads: string -> Option<Json>, str: Json -> string)
    returns (all: map<string, Json>, txt: seq<string>, crashed: bool)
    requires cycle.Valid() && Frames.Distinct(posts)
    modifies cycle
    ensures cycle.Valid()
    ensures forall k :: k in all ==> k in posts
    ensures crashed ==> exists k :: k in posts && Fails(all, k)
    ensures !crashed ==> forall k :: k in all ==> Formattable(all[k])
    ensures !crashed ==> txt == header + Comparison.Blocks(1, posts, Comparison.Shown(posts, all, Show(str)))
  {
    var batches := MakeBatches(posts);
    all, txt, crashed := map[], header, false;
    var call, done, b := 0, 0, 0;
    assert txt == header + Comparison.Blocks(1, posts[..0], Comparison.Shown(posts[..0], all, Show(str)));
    Frames.ChunksCount(posts, BatchSize);
    while b < |batches|
      invariant cycle.Valid()
      invariant b <= |batches| && done <= |posts|
      invariant b < |batches| ==> done == b * BatchSize
      invariant b == |batches| ==> done == |posts|
      invariant forall k :: k in all ==> k in posts[..done] && Formattable(all[k])
      invariant txt == header + Comparison.Blocks(1, posts[..done], Comparison.Shown(posts[..done], all, Show(str)))
    {
      all, txt, done, call, crashed := SummarizeNext(cycle, posts, header, b, done, all, txt, model, loads, str, call);
      if crashed {
        return;
      }
      b := b + 1;
    }
    assert posts[..done] == posts;
  }

  /** The `summary` column: `df['post'].map(mapping)`, where the mapping sends
      each summarised post to its rendered summary; a row whose post has no
      summary gets nothing. (The comparison text shows such a post with the
      failure marker instead.) */
  function SummaryColumn(rows: seq<string>, all: map<string, Json>, str: Json -> string): (col: seq<Option<string>>)
    requires forall k :: k in all ==> Formattable(all[k])
    ensures |col| == |rows|
    ensures forall i :: 0 <= i < |rows| ==> (col[i].Some? <==> rows[i] in all)
    ensures forall i :: 0 <= i < |rows| && rows[i] in all ==> Some(col[i].value) == FormatSummary(all[rows[i]], str)
  {
    seq(|rows|, i requires 0 <= i < |rows| =>
      if rows[i] in all then Some(FormatSummary(all[rows[i]], str).value) else None)
  }

  /** `'nội_dung' in summary`: a member of a dictionary, a substring of a
      string, an element of a list; None where `in` raises (a number, a
      boolean, null). */
  function HasContent(summary: Json): Option<bool> {
    match summary
    case JObject(items) => Some(Get(items, "nội_dung").Some?)
    case JString(s) => Some(Text.Contains(s, "nội_dung"))
    case JArray(elems) => Some(JString("nội_dung") in elems)
    case JScalar(_) => None
  }

  /** `success_count`: the summaries with a 'nội_dung', or None where the test raises. */
  function SuccessCount(all: map<string, Json>): (n: Option<nat>)
    ensures n.None? <==> exists k :: k in all && HasContent(all[k]).None?
    ensures n.Some? ==> n.value <= |all|
    ensures n.Some? ==> (n.value == |all| <==> forall k :: k in all ==> HasContent(all[k]) == Some(true))
  {
    if exists k :: k in all && HasContent(all[k]).None? then None
    else
      var counted := set k | k in all && HasContent(all[k]) == Some(true);
      assert counted <= all.Keys;
      assert counted == all.Keys <==> forall k :: k in all ==> HasContent(all[k]) == Some(true);
      SubsetSize(counted, all.Keys);
      Some(|counted|)
  }

  lemma SubsetSize(a: set<string>, b: set<string>)
    requires a <= b
    ensures |a| <= |b|
    ensures |a| == |b| <==> a == b
  {
    if a != b {
      var x :| x in b && x !in a;
      assert a <= b - {x};
      SubsetSize(a, b - {x});
    }
  }

  /** Both fallback dictionaries have a 'nội_dung', so the success count counts
      a batch that gave up, or whose reply was not JSON, as summarised. */
  lemma FallbacksCounted(batch: seq<string>, responseText: string)
    ensures SuccessCount(SummaryBatch.Uniform(batch, GaveUpFallback)) == Some(|SummaryBatch.Uniform(batch, GaveUpFallback)|)
    ensures SuccessCount(SummaryBatch.Uniform(batch, JsonErrorFallback(responseText)))
            == Some(|SummaryBatch.Uniform(batch, JsonErrorFallback(responseText))|)
  {
    assert GaveUpFallback.items[0].0 == "nội_dung";
    assert HasContent(GaveUpFallback) == Some(true);
    assert JsonErrorFallback(responseText).items[0].0 == "nội_dung";
    assert HasContent(JsonErrorFallback(responseText)) == Some(true);
  }

  /** `main_batch` on the `post` column `rows`: the unique posts are summarised
      in batches of five; unless a summary cannot be rendered, the sheet gets
      the summary column and the comparison text its header and one block per
      post, joined by line breaks; the success count is computed last, and
      raises (None) on a summary that is a number, a boolean or null. */
  method MainBatch(cycle: KeyCycle, rows: seq<string>, now: string,
                   model: (nat, string, nat) -> SummaryBatch.Reply, loads: string -> Option<Json>, str: Json -> string)
    returns (all: map<string, Json>, column: Option<seq<Option<string>>>, txt: Option<string>, successes: Option<nat>)
    requires cycle.Valid()
    modifies cycle
    ensures cycle.Valid()
    ensures forall k :: k in all ==> k in rows
    ensures column.None? <==> txt.None?
    ensures column.None? ==> successes.None? && exists k :: k in rows && Fails(all, k)
    ensures column.Some? ==> forall k :: k in all ==> Formattable(all[k])
    ensures column.Some? ==> column.value == SummaryColumn(rows, all, str)
    ensures txt.Some? ==> var posts := Frames.Unique(rows);
              txt.value == Text.Join(Header(now, |posts|) + Comparison.Blocks(1, posts, Comparison.Shown(posts, all, Show(str))), "\n")
    ensures column.Some? ==> successes == SuccessCount(all)
  {
    var posts := Frames.Unique(rows);
    var header := Header(now, |posts|);
    var lines, crashed;
    all, lines, crashed := SummarizePosts(cycle, posts, header, model, loads, str);
    if crashed {
      return all, None, None, None;
    }
    column := Some(SummaryColumn(rows, all, str));
    txt := Some(Text.Join(lines, "\n"));
    successes := SuccessCount(all);
  }
}
