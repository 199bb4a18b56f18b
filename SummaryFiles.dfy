/** `process_single_file` of the summarise-and-prepare step: the unique posts of
    a sheet are summarised in batches of three, the comparison text lists every
    post with the summary its batch produced, the summary column is filled in
    by post, missing columns get their defaults (the platform read from the
    file name) and the output is named after the input with a `_summarized`
    suffix. */
module SummaryFiles {
  import opened Wrappers
  import opened JsonValues
  import Text
  import Frames
  import KeyManager
  import SummaryBatch
  import Summarize
  import Comparison

  // ---------------------------------------------------------------------
  // Names

  /** The platform a sheet comes from, read from its lower-cased file name:
      the first of the five platform names it mentions. */
  function Platform(fileName: string): (p: string)
    ensures p in {"Facebook", "YouTube", "Reddit", "TikTok", "Threads", "Unknown"}
    ensures var name := Text.Lower(fileName);
            && (p == "Facebook" <==> Text.Contains(name, "facebook"))
            && (p == "YouTube" <==> !Text.Contains(name, "facebook") && Text.Contains(name, "youtube"))
            && (p == "Reddit" <==> !Text.Contains(name, "facebook") && !Text.Contains(name, "youtube")
                                    && Text.Contains(name, "reddit"))
            && (p == "TikTok" <==> !Text.Contains(name, "facebook") && !Text.Contains(name, "youtube")
                                    && !Text.Contains(name, "reddit") && Text.Contains(name, "tiktok"))
            && (p == "Threads" <==> !Text.Contains(name, "facebook") && !Text.Contains(name, "youtube")
                                     && !Text.Contains(name, "reddit") && !Text.Contains(name, "tiktok")
                                     && Text.Contains(name, "threads"))
  {
    var name := Text.Lower(fileName);
    if Text.Contains(name, "facebook") then "Facebook"
    else if Text.Contains(name, "youtube") then "YouTube"
    else if Text.Contains(name, "reddit") then "Reddit"
    else if Text.Contains(name, "tiktok") then "TikTok"
    else if Text.Contains(name, "threads") then "Threads"
    else "Unknown"
  }

  const Suffix: string := "_summarized"

  predicate EndsWith(s: string, suffix: string) {
    |suffix| <= |s| && s[|s| - |suffix|..] == suffix
  }

  /** The output stem: the input's stem, with `_summarized` added unless it is
      already there. */
  function OutputStem(stem: string): (r: string)
    ensures EndsWith(r, Suffix)
    ensures EndsWith(stem, Suffix) ==> r == stem
    ensures !EndsWith(stem, Suffix) ==> r == stem + Suffix
  {
    if EndsWith(stem, Suffix) then stem else stem + Suffix
  }

  /** Summarising an output file again writes to the same names. */
  lemma OutputStemIdempotent(stem: string)
    ensures OutputStem(OutputStem(stem)) == OutputStem(stem)
  {
  }

  /** The spreadsheet and the comparison text written for an input stem. */
  function OutputNames(stem: string): (r: (string, string))
    ensures r.0 == OutputStem(stem) + ".xlsx" && r.1 == OutputStem(stem) + "_comparison.txt"
  {
    (OutputStem(stem) + ".xlsx", OutputStem(stem) + "_comparison.txt")
  }

  // ---------------------------------------------------------------------
  // The comparison text

  /** The header of the comparison text; `now` is the rendered timestamp. */
  function Header(modelName: string, fileName: string, now: string, count: nat): (r: seq<string>)
    ensures |r| == 9 && r[0] == Comparison.Rule && r[7] == Comparison.Rule && r[8] == ""
  {
    [Comparison.Rule,
     "GEMINI " + Text.Upper(modelName) + " - KẾT QUẢ PHÂN TÍCH CẢI TIẾN",
     "File: " + fileName,
     "Tạo vào: " + now,
     "Tổng số post: " + Text.NatToString(count),
     "Kích thước batch: " + Text.NatToString(Summarize.BatchSize),
     "Model: " + modelName,
     Comparison.Rule,
     ""]
  }

  /** What the comparison text shows for a post: its summary (`str` of it,
      `repr` for a value that is not a string), or the failure marker when the
      post has none. */
  function Display(repr: Json -> string, entry: Option<Json>): string {
    match entry
    case None => Summarize.MissingSummary
    case Some(JString(s)) => s
    case Some(v) => repr(v)
  }

  function Show(repr: Json -> string): Option<Json> -> string {
    entry => Display(repr, entry)
  }

  /** Batch `b` of the post list follows the `b` full batches before it, and
      the last batch ends the list. */
  lemma BatchBounds(posts: seq<string>, b: nat)
    requires b < |Frames.Chunks(posts, Summarize.BatchSize)|
    ensures b * Summarize.BatchSize + |Frames.Chunks(posts, Summarize.BatchSize)[b]| <= |posts|
    ensures b + 1 < |Frames.Chunks(posts, Summarize.BatchSize)| ==> |Frames.Chunks(posts, Summarize.BatchSize)[b]| == Summarize.BatchSize
    ensures b + 1 == |Frames.Chunks(posts, Summarize.BatchSize)| ==> b * Summarize.BatchSize + |Frames.Chunks(posts, Summarize.BatchSize)[b]| == |posts|
  {
    var size := Summarize.BatchSize;
    Frames.ChunkAt(posts, size, b);
    Frames.ChunksCount(posts, size);
    if b + 1 < |Frames.Chunks(posts, size)| {
      Frames.ChunkAt(posts, size, b + 1);
    }
  }

  /** One round of the loop below: batch `b`, which starts at post `done`, is
      summarised, its blocks are appended to the text, numbered on from
      `done + 1`, and its summaries are merged in. */
  method SummarizeNext(km: KeyManager.APIKeyManager, posts: seq<string>, header: seq<string>, b: nat, done: nat,
                       all: map<string, Json>, txt: seq<string>, redact: string -> string, pat: Summarize.Patterns,
                       model: (nat, string, nat) -> SummaryBatch.Reply, clock: (nat, nat) -> (int, int, int),
                       repr: Json -> string, call: nat)
    returns (merged: map<string, Json>, txt': seq<string>, end: nat, next: nat)
    requires km.Valid() && Frames.Distinct(posts)
    requires b < |Frames.Chunks(posts, Summarize.BatchSize)| && done == b * Summarize.BatchSize && done <= |posts|
    requires forall k :: k in all ==> k in posts[..done]
    requires txt == header + Comparison.Blocks(1, posts[..done], Comparison.Shown(posts[..done], all, Show(repr)))
    modifies km`usage, km`currentKeyIndex
    ensures km.Valid()
    ensures end <= |posts|
    ensures b + 1 < |Frames.Chunks(posts, Summarize.BatchSize)| ==> end == (b + 1) * Summarize.BatchSize
    ensures b + 1 == |Frames.Chunks(posts, Summarize.BatchSize)| ==> end == |posts|
    ensures forall k :: k in merged ==> k in posts[..end]
    ensures txt' == header + Comparison.Blocks(1, posts[..end], Comparison.Shown(posts[..end], merged, Show(repr)))
  {
    var batch := Frames.Chunks(posts, Summarize.BatchSize)[b];
    BatchBounds(posts, b);
    Frames.ChunkAt(posts, Summarize.BatchSize, b);
    end := done + |batch|;
    assert batch == posts[done..end];
    var results;
    ghost var cuts;
    results, next, cuts := Summarize.ProcessBatch(km, batch, redact, pat, model, clock, call);
    var lines := Comparison.ListBatch(b * Summarize.BatchSize + 1, batch, results, Show(repr));
    Comparison.MergeKeys(posts, done, end, all, results);
    Comparison.ExtendText(posts, header, done, end, all, results, txt, lines, Show(repr));
    merged := all + results;
    txt' := txt + lines;
  }

  /** The `process_batch` loop of `process_single_file` over the unique posts
      (pairwise distinct): each batch's summaries are merged into the file's,
      and its posts are listed, numbered on from the previous batch, with what
      that batch produced for them. Since every post is in exactly one batch,
      the comparison text shows each post with its summary in the merged map. */
  method SummarizeFile(km: KeyManager.APIKeyManager, posts: seq<string>, header: seq<string>, redact: string -> string,
                       pat: Summarize.Patterns, model: (nat, string, nat) -> SummaryBatch.Reply,
                       clock: (nat, nat) -> (int, int, int), repr: Json -> string)
    returns (all: map<string, Json>, txt: seq<string>)
    requires km.Valid() && Frames.Distinct(posts)
    modifies km`usage, km`currentKeyIndex
    ensures km.Valid()
    ensures forall k :: k in all ==> k in posts
    ensures txt == header + Comparison.Blocks(1, posts, Comparison.Shown(posts, all, Show(repr)))
  {
    var batches := Frames.Chunks(posts, Summarize.BatchSize);
    all, txt := map[], header;
    var call, done, b := 0, 0, 0;
    assert txt == header + Comparison.Blocks(1, posts[..0], Comparison.Shown(posts[..0], all, Show(repr)));
    Frames.ChunksCount(posts, Summarize.BatchSize);
    while b < |batches|
      invariant km.Valid()
      invariant b <= |batches| && done <= |posts|
      invariant b < |batches| ==> done == b * Summarize.BatchSize
      invariant b == |batches| ==> done == |posts|
      invariant forall k :: k in all ==> k in posts[..done]
      invariant txt == header + Comparison.Blocks(1, posts[..done], Comparison.Shown(posts[..done], all, Show(repr)))
    {
      all, txt, done, call := SummarizeNext(km, posts, header, b, done, all, txt, redact, pat, model, clock, repr, call);
      b := b + 1;
    }
    assert posts[..done] == posts;
  }

  // ---------------------------------------------------------------------
  // The output sheet

  /** The `summary` column: each row with a post gets that post's summary, or
      "" when its batch returned none for it; a row without a post gets none.
      The source fills it post by post over the unique posts. */
  method SummaryColumn(rows: seq<Option<string>>, posts: seq<string>, all: map<string, Json>)
    returns (col: seq<Option<Json>>)
    requires posts == Frames.Unique(Frames.Present(rows))
    ensures |col| == |rows|
    ensures forall k :: 0 <= k < |rows| ==>
              col[k] == if rows[k].Some? then Some(if rows[k].value in all then all[rows[k].value] else JString("")) else None
  {
    col := FillSummaries(rows, posts, all);
    PresentPosts(rows, posts);
  }

  /** The loop of `SummaryColumn` over `posts`: each row whose post is one of
      them gets that post's summary, or "" when there is none; every other row
      gets none. */
  method FillSummaries(rows: seq<Option<string>>, posts: seq<string>, all: map<string, Json>)
    returns (col: seq<Option<Json>>)
    ensures |col| == |rows|
    ensures forall k :: 0 <= k < |rows| ==>
              col[k] == if rows[k].Some? && rows[k].value in posts
                        then Some(if rows[k].value in all then all[rows[k].value] else JString("")) else None
  {
    col := seq(|rows|, k => None);
    var i := 0;
    while i < |posts|
      invariant i <= |posts| && |col| == |rows|
      invariant forall k :: 0 <= k < |rows| ==>
                  col[k] == if rows[k].Some? && rows[k].value in posts[..i]
                            then Some(if rows[k].value in all then all[rows[k].value] else JString("")) else None
    {
      var post := posts[i];
      var summaryText := if post in all then all[post] else JString("");
      col := seq(|rows|, k requires 0 <= k < |rows| => if rows[k] == Some(post) then Some(summaryText) else col[k]);
      i := i + 1;
    }
    assert posts[..i] == posts;
  }

  /** Every post of a row is one of the unique posts. */
  lemma PresentPosts(rows: seq<Option<string>>, posts: seq<string>)
    requires posts == Frames.Unique(Frames.Present(rows))
    ensures forall k :: 0 <= k < |rows| && rows[k].Some? ==> rows[k].value in posts
  {
    forall k | 0 <= k < |rows| && rows[k].Some?
      ensures rows[k].value in posts
    {
      assert Some(rows[k].value) in rows;
    }
  }

  /** The value a missing required column is filled with, row by row: numbered
      post and comment ids from 1, today's date, the platform read from the
      file name, or "". */
  function DefaultColumn(name: string, rows: nat, fileName: string, today: string): (r: seq<string>)
    ensures |r| == rows
    ensures name == "post_id" ==> forall x :: 0 <= x < rows ==> r[x] == "post_" + Text.NatToString(x + 1)
    ensures name == "comment_id" ==> forall x :: 0 <= x < rows ==> r[x] == "comment_" + Text.NatToString(x + 1)
    ensures name == "created_date" ==> forall x :: 0 <= x < rows ==> r[x] == today
    ensures name == "platform" ==> forall x :: 0 <= x < rows ==> r[x] == Platform(fileName)
    ensures name !in {"post_id", "comment_id", "created_date", "platform"} ==> forall x :: 0 <= x < rows ==> r[x] == ""
  {
    if name == "post_id" then seq(rows, x requires 0 <= x < rows => "post_" + Text.NatToString(x + 1))
    else if name == "comment_id" then seq(rows, x requires 0 <= x < rows => "comment_" + Text.NatToString(x + 1))
    else if name == "created_date" then seq(rows, x => today)
    else if name == "platform" then seq(rows, x => Platform(fileName))
    else seq(rows, x => "")
  }

  /** Filled-in ids are pairwise distinct. */
  lemma DefaultIdsDistinct(name: string, rows: nat, fileName: string, today: string)
    requires name == "post_id" || name == "comment_id"
    ensures Frames.Distinct(DefaultColumn(name, rows, fileName, today))
  {
    var r := DefaultColumn(name, rows, fileName, today);
    var prefix := if name == "post_id" then "post_" else "comment_";
    forall i, j | 0 <= i < j < rows ensures r[i] != r[j] {
      assert r[i] == prefix + Text.NatToString(i + 1) && r[j] == prefix + Text.NatToString(j + 1);
      if r[i] == r[j] {
        assert r[i][|prefix|..] == Text.NatToString(i + 1);
        assert r[j][|prefix|..] == Text.NatToString(j + 1);
        Text.NatToStringInjective(i + 1, j + 1);
      }
    }
  }

  const RequiredColumns: seq<string> := ["post_id", "post_raw", "comment_id", "comment_raw", "created_date", "platform"]

  const DesiredOrder: seq<string> := ["post_id", "post_raw", "summary", "comment_id", "comment_raw", "created_date", "platform"]

  /** The columns of the output sheet, in order: the desired ones that exist,
      then `label` when the input has it (appended to the wish list, it is
      always kept, and it is not among the desired ones). */
  function OutputColumns(present: set<string>): (r: seq<string>)
    ensures forall c :: c in r <==> c in present && (c in DesiredOrder || c == "label")
  {
    Frames.SelectMembers(DesiredOrder, present);
    Frames.Select(DesiredOrder, present) + (if "label" in present then ["label"] else [])
  }

  /** Once the required columns are filled in, the desired columns are all
      kept, in order, with `summary` among them exactly when it exists (it is
      created by the first post's assignment, so a sheet without posts has
      none). */
  lemma DesiredColumnsShape(present: set<string>)
    requires forall c :: c in RequiredColumns ==> c in present
    ensures Frames.Select(DesiredOrder, present)
            == RequiredColumns[..2] + (if "summary" in present then ["summary"] else []) + RequiredColumns[2..]
  {
    assert DesiredOrder == RequiredColumns[..2] + ["summary"] + RequiredColumns[2..];
    Frames.SelectAroundOne(RequiredColumns[..2], "summary", RequiredColumns[2..], present);
  }

  // ---------------------------------------------------------------------
  // The success count

  /** A summary counted as a success: a non-empty string that mentions none of
      the three failure phrases. */
  predicate Succeeded(v: Json) {
    v.JString? && v.s != [] && !Text.Contains(v.s, "Không thể") && !Text.Contains(v.s, "JSON lỗi")
    && !Text.Contains(v.s, "bị chặn")
  }

  /** The number of summaries counted as successes. */
  function SuccessCount(values: seq<Json>): (n: nat)
    ensures n <= |values|
    ensures n == |values| <==> forall i :: 0 <= i < |values| ==> Succeeded(values[i])
    ensures n == 0 <==> forall i :: 0 <= i < |values| ==> !Succeeded(values[i])
  {
    if values == [] then 0
    else SuccessCount(values[..|values| - 1]) + (if Succeeded(values[|values| - 1]) then 1 else 0)
  }

  /** The safety-filter marker is never counted as a success. */
  lemma BlockedNotCounted()
    ensures !Succeeded(JString(Summarize.BlockedSummary))
  {
    var s := Summarize.BlockedSummary;
    assert s == "Nội dung " + "bị chặn" + " bởi AI safety filter";
    Text.OccursBetween("Nội dung ", "bị chặn", " bởi AI safety filter");
    Text.ContainsExactly(s, "bị chặn", 9);
  }

  /** The gave-up marker is never counted as a success. */
  lemma GaveUpNotCounted()
    ensures !Succeeded(JString(Summarize.GaveUpSummary))
  {
    var s := Summarize.GaveUpSummary;
    assert s == [] + "Không thể" + " tóm tắt sau nhiều lần thử";
    Text.OccursBetween([], "Không thể", " tóm tắt sau nhiều lần thử");
    Text.ContainsExactly(s, "Không thể", 0);
  }
}
