/** What the two post summarisers (preprocessing/2_summarize_and_prepare.py and
    labeling/04_post_summarizer.py) share: the batch prompt with its ids, the
    halving of an over-budget batch, the mapping of a decoded reply back onto
    the batch's posts, and the one-value-for-every-post fallback.

    The prompt template itself only matters through its length (`frame`, the
    characters the template adds around the entries), because the text the
    model receives is not observable here: a reply is a parameter. */
module SummaryBatch {
  import opened Wrappers
  import opened JsonValues
  import Text
  import Tokens
  import Frames

  // ---------------------------------------------------------------------
  // The batch prompt

  /** `f"id{idx+1}"`: the id given to the post at position `idx`. */
  function BatchId(idx: nat): string {
    "id" + Text.NatToString(idx + 1)
  }

  /** Different positions get different ids. */
  lemma BatchIdInjective(i: nat, j: nat)
    requires BatchId(i) == BatchId(j)
    ensures i == j
  {
    assert Text.NatToString(i + 1) == BatchId(i)[2..];
    assert Text.NatToString(j + 1) == BatchId(j)[2..];
    Text.NatToStringInjective(i + 1, j + 1);
  }

  /** `batch_ids` for a batch of `n` posts: id1 .. idn in order. */
  function BatchIds(n: nat): (r: seq<string>)
    ensures |r| == n
    ensures forall i :: 0 <= i < n ==> r[i] == BatchId(i)
  {
    seq(n, i requires 0 <= i => BatchId(i))
  }

  /** `batch_ids.index(BatchId(k))` is `k`: an id leads back to the post it was given to. */
  lemma BatchIdsIndex(n: nat, k: nat)
    requires k < n
    ensures Frames.IndexOf(BatchIds(n), BatchId(k)) == Some(k)
  {
    var r := Frames.IndexOf(BatchIds(n), BatchId(k));
    assert BatchIds(n)[k] == BatchId(k);
    assert r.Some?;
    if r.value != k {
      assert r.value < k;
      BatchIdInjective(r.value, k);
    }
  }

  /** `text[:keep] + "..."`: the cut-down copy of a post. */
  function Shorten(text: string, keep: nat): (r: string)
    requires keep <= |text|
    ensures |r| == keep + 3 && r[..keep] == text[..keep] && r[keep..] == "..."
  {
    text[..keep] + "..."
  }

  /** The text `create_batch_prompt` shows for a cleaned post of a batch of `n`:
      the whole post while its estimate is within `maxTokens // n`, else its
      first `int(len * 0.75)` characters followed by "...". */
  function Fitted(clean: string, n: nat, maxTokens: nat): string
    requires n > 0
  {
    if Tokens.EstimateTokens(clean) > maxTokens / n then Shorten(clean, (3 * |clean|) / 4) else clean
  }

  /** A post is cut exactly when it is over its share of the budget, the cut
      keeps its first three quarters, and with a share of at least two tokens
      the cut never makes a post longer. */
  lemma FittedShape(clean: string, n: nat, maxTokens: nat)
    requires n > 0
    ensures Tokens.EstimateTokens(clean) <= maxTokens / n ==> Fitted(clean, n, maxTokens) == clean
    ensures Tokens.EstimateTokens(clean) > maxTokens / n ==>
              var r := Fitted(clean, n, maxTokens);
              r[..(3 * |clean|) / 4] == clean[..(3 * |clean|) / 4] && |r| == (3 * |clean|) / 4 + 3
    ensures maxTokens / n >= 2 ==> |Fitted(clean, n, maxTokens)| <= |clean|
  {
  }

  /** `f"Văn bản {post_id}:\n\"{clean_post}\""`. */
  function Entry(id: string, text: string): string {
    "Văn bản " + id + ":\n\"" + text + "\""
  }

  /** The entries of the batch prompt, one per post in order. */
  function PromptEntries(posts: seq<string>, clean: string -> string, maxTokens: nat): (r: seq<string>)
    ensures |r| == |posts|
  {
    seq(|posts|, i requires 0 <= i < |posts| => Entry(BatchId(i), Fitted(clean(posts[i]), |posts|, maxTokens)))
  }

  /** `create_batch_prompt`: the entries joined by blank lines (the text the
      template's placeholder receives) and the ids `id1 .. idN`. */
  method CreateBatchPrompt(posts: seq<string>, clean: string -> string, maxTokens: nat)
    returns (formatted: string, ids: seq<string>)
    ensures ids == BatchIds(|posts|)
    ensures formatted == Text.Join(PromptEntries(posts, clean, maxTokens), "\n\n")
  {
    var entries: seq<string> := [];
    ids := [];
    var i := 0;
    while i < |posts|
      invariant i <= |posts|
      invariant ids == BatchIds(i)
      invariant entries == PromptEntries(posts, clean, maxTokens)[..i]
    {
      var id := BatchId(i);
      ids := ids + [id];
      var text := clean(posts[i]);
      if Tokens.EstimateTokens(text) > maxTokens / |posts| {
        text := Shorten(text, (3 * |text|) / 4);
      }
      entries := entries + [Entry(id, text)];
      i := i + 1;
    }
    assert entries == PromptEntries(posts, clean, maxTokens);
    formatted := Text.Join(entries, "\n\n");
  }

  /** The length of the prompt: the template's `frame` characters plus the entries. */
  function PromptLength(posts: seq<string>, clean: string -> string, maxTokens: nat, frame: nat): nat {
    frame + |Text.Join(PromptEntries(posts, clean, maxTokens), "\n\n")|
  }

  /** `estimate_tokens(prompt) > MAX_TOKENS` for the batch's prompt. */
  predicate TooLarge(posts: seq<string>, clean: string -> string, maxTokens: nat, frame: nat) {
    Tokens.EstimateLength(PromptLength(posts, clean, maxTokens, frame)) > maxTokens
  }

  // ---------------------------------------------------------------------
  // Halving an over-budget batch

  /** The batches `process_batch` ends up sending for `posts`, in order: one that
      fits, or a single post, is sent as it is; a larger one over budget is split
      at `len // 2` and each half treated the same way. */
  function Leaves(posts: seq<string>, clean: string -> string, maxTokens: nat, frame: nat): seq<seq<string>>
    decreases |posts|
  {
    if posts == [] then []
    else if |posts| > 1 && TooLarge(posts, clean, maxTokens, frame) then
      Leaves(posts[..|posts| / 2], clean, maxTokens, frame) + Leaves(posts[|posts| / 2..], clean, maxTokens, frame)
    else [posts]
  }

  /** One step of the halving, for a batch whose prompt has length `promptLength`. */
  lemma LeavesStep(posts: seq<string>, clean: string -> string, maxTokens: nat, frame: nat, promptLength: nat)
    requires posts != [] && promptLength == PromptLength(posts, clean, maxTokens, frame)
    ensures |posts| > 1 && Tokens.EstimateLength(promptLength) > maxTokens ==>
              Leaves(posts, clean, maxTokens, frame)
              == Leaves(posts[..|posts| / 2], clean, maxTokens, frame) + Leaves(posts[|posts| / 2..], clean, maxTokens, frame)
    ensures !(|posts| > 1 && Tokens.EstimateLength(promptLength) > maxTokens) ==> Leaves(posts, clean, maxTokens, frame) == [posts]
  {
  }

  /** The batches sent cover the posts exactly once and in order. */
  lemma {:induction false} LeavesCover(posts: seq<string>, clean: string -> string, maxTokens: nat, frame: nat)
    ensures Text.Concat(Leaves(posts, clean, maxTokens, frame)) == posts
    decreases |posts|
  {
    if |posts| > 1 && TooLarge(posts, clean, maxTokens, frame) {
      var mid := |posts| / 2;
      LeavesCover(posts[..mid], clean, maxTokens, frame);
      LeavesCover(posts[mid..], clean, maxTokens, frame);
      ConcatAppend(Leaves(posts[..mid], clean, maxTokens, frame), Leaves(posts[mid..], clean, maxTokens, frame));
      assert posts == posts[..mid] + posts[mid..];
    } else if posts != [] {
      assert Text.Concat([posts]) == posts + Text.Concat([posts][1..]);
    }
  }

  lemma {:induction false} ConcatAppend(a: seq<seq<string>>, b: seq<seq<string>>)
    ensures Text.Concat(a + b) == Text.Concat(a) + Text.Concat(b)
    decreases |a|
  {
    if a != [] {
      ConcatAppend(a[1..], b);
      assert (a + b)[1..] == a[1..] + b;
    } else {
      assert a + b == b;
    }
  }

  /** Every batch sent is non-empty and either fits the budget or is a single post. */
  lemma {:induction false} LeavesFit(posts: seq<string>, clean: string -> string, maxTokens: nat, frame: nat)
    ensures forall leaf :: leaf in Leaves(posts, clean, maxTokens, frame) ==>
              leaf != [] && (|leaf| == 1 || !TooLarge(leaf, clean, maxTokens, frame))
    decreases |posts|
  {
    if |posts| > 1 && TooLarge(posts, clean, maxTokens, frame) {
      LeavesFit(posts[..|posts| / 2], clean, maxTokens, frame);
      LeavesFit(posts[|posts| / 2..], clean, maxTokens, frame);
    }
  }

  // ---------------------------------------------------------------------
  // The reply onto the batch

  /** One attempt at the model: `generate_content` raised; it answered without a
      candidate or without parts (blocked); reading `response.text` raised; or
      it answered with this text. */
  datatype Reply = CallFailed(error: string) | Blocked | TextFailed(error: string) | Answered(text: string)

  /** What one attempt of a retry loop decides: return these summaries, or go
      round again (after switching key, where the summariser does that). */
  datatype Outcome = Finished(summaries: map<string, Json>) | TryAgain(switchKey: bool)

  /** The position a decoded result sends its summary to: its "id" member must be
      a string in `ids`, and the position must be one of the batch's. */
  function Target(items: seq<(string, Json)>, batch: seq<string>, ids: seq<string>): (r: Option<nat>)
    ensures r.Some? ==> r.value < |batch|
  {
    match Get(items, "id")
    case Some(JString(s)) =>
      (match Frames.IndexOf(ids, s)
       case Some(k) => if k < |batch| then Some(k) else None
       case None => None)
    case _ => None
  }

  /** With the prompt's own ids, a result names position `k` exactly when its id is `id{k+1}`. */
  lemma TargetIsId(items: seq<(string, Json)>, batch: seq<string>, k: nat)
    requires k < |batch|
    ensures Target(items, batch, BatchIds(|batch|)) == Some(k) <==> Get(items, "id") == Some(JString(BatchId(k)))
  {
    BatchIdsIndex(|batch|, k);
  }

  /** The mapping loop over the first `n` results: a result whose id names a
      position puts its summary (or `default`) under that position's original
      post, overriding an earlier one; a result that is not a dictionary makes
      `result.get` raise, and the loop with it (None). */
  function MapItems(elems: seq<Json>, n: nat, batch: seq<string>, ids: seq<string>, default: Json): (r: Option<map<string, Json>>)
    requires n <= |elems|
    ensures r.Some? ==> forall k :: k in r.value ==> k in batch
  {
    if n == 0 then Some(map[])
    else
      match MapItems(elems, n - 1, batch, ids, default)
      case None => None
      case Some(m) =>
        match elems[n - 1]
        case JObject(items) =>
          (match Target(items, batch, ids)
           case Some(k) => Some(m[batch[k] := GetOr(items, "summary", default)])
           case None => Some(m))
        case _ => None
  }

  /** A dictionary result puts its summary under the post its id names, if any. */
  lemma MapItemsStep(elems: seq<Json>, i: nat, batch: seq<string>, ids: seq<string>, default: Json,
                     prev: map<string, Json>, next: map<string, Json>)
    requires i < |elems| && elems[i].JObject? && MapItems(elems, i, batch, ids, default) == Some(prev)
    requires next == match Target(elems[i].items, batch, ids)
                     case Some(k) => prev[batch[k] := GetOr(elems[i].items, "summary", default)]
                     case None => prev
    ensures MapItems(elems, i + 1, batch, ids, default) == Some(next)
  {
  }

  /** Result `e` sends its summary to position `k`. */
  predicate Names(e: Json, batch: seq<string>, ids: seq<string>, k: nat) {
    e.JObject? && Target(e.items, batch, ids) == Some(k)
  }

  /** The last of the first `n` results that names position `k`. */
  function LastNaming(elems: seq<Json>, n: nat, batch: seq<string>, ids: seq<string>, k: nat): (r: Option<nat>)
    requires n <= |elems|
    ensures r.Some? <==> exists i :: 0 <= i < n && Names(elems[i], batch, ids, k)
    ensures r.Some? ==> r.value < n && Names(elems[r.value], batch, ids, k)
                        && forall j :: r.value < j < n ==> !Names(elems[j], batch, ids, k)
  {
    if n == 0 then None
    else if Names(elems[n - 1], batch, ids, k) then Some(n - 1)
    else LastNaming(elems, n - 1, batch, ids, k)
  }

  /** Over distinct posts, a post gets a summary exactly when some result names
      its position, and the one it gets is that of the last such result. */
  lemma {:induction false} MapItemsAt(elems: seq<Json>, n: nat, batch: seq<string>, ids: seq<string>, default: Json, k: nat)
    requires n <= |elems| && k < |batch| && Frames.Distinct(batch)
    requires MapItems(elems, n, batch, ids, default).Some?
    ensures var m := MapItems(elems, n, batch, ids, default).value;
            var last := LastNaming(elems, n, batch, ids, k);
            (batch[k] in m <==> last.Some?)
            && (last.Some? ==> m[batch[k]] == GetOr(elems[last.value].items, "summary", default))
  {
    if n > 0 {
      MapItemsAt(elems, n - 1, batch, ids, default, k);
      var e := elems[n - 1];
      assert e.JObject?;
      var t := Target(e.items, batch, ids);
      if t.Some? && t.value != k {
        assert batch[t.value] != batch[k];
      }
    }
  }

  /** Once a result has made the loop raise, it stays raised. */
  lemma {:induction false} MapItemsRaised(elems: seq<Json>, i: nat, n: nat, batch: seq<string>, ids: seq<string>, default: Json)
    requires i <= n <= |elems| && MapItems(elems, i, batch, ids, default).None?
    ensures MapItems(elems, n, batch, ids, default).None?
    decreases n - i
  {
    if i < n {
      MapItemsRaised(elems, i + 1, n, batch, ids, default);
    }
  }

  /** The outcome of the mapping loop on a decoded reply: the `results` member
      (an empty list when missing) is iterated, and `.get` on a reply or a
      result that is not a dictionary raises (None). Iterating a non-empty
      string or dictionary yields strings, whose `.get` raises; a scalar is
      not iterable. */
  function MappedResults(reply: Json, batch: seq<string>, ids: seq<string>, default: Json): (r: Option<map<string, Json>>)
    ensures r.Some? ==> forall k :: k in r.value ==> k in batch
  {
    match reply
    case JObject(items) =>
      (match GetOr(items, "results", JArray([]))
       case JArray(elems) => MapItems(elems, |elems|, batch, ids, default)
       case JString(s) => if s == "" then Some(map[]) else None
       case JObject(members) => if members == [] then Some(map[]) else None
       case JScalar(_) => None)
    case _ => None
  }

  /** The mapping loop as written. */
  method MapResults(reply: Json, batch: seq<string>, ids: seq<string>, default: Json)
    returns (r: Option<map<string, Json>>)
    ensures r == MappedResults(reply, batch, ids, default)
  {
    if !reply.JObject? {
      return None;
    }
    var results := GetOr(reply.items, "results", JArray([]));
    match results {
      case JArray(elems) =>
        var summaries: map<string, Json> := map[];
        var i := 0;
        while i < |elems|
          invariant i <= |elems|
          invariant MapItems(elems, i, batch, ids, default) == Some(summaries)
        {
          var result := elems[i];
          if !result.JObject? {
            MapItemsRaised(elems, i + 1, |elems|, batch, ids, default);
            return None;
          }
          ghost var prev := summaries;
          var resultId := Get(result.items, "id");
          if resultId.Some? && resultId.value.JString? && resultId.value.s in ids {
            var postIdx := Frames.IndexOf(ids, resultId.value.s).value;
            if postIdx < |batch| {
              summaries := summaries[batch[postIdx] := GetOr(result.items, "summary", default)];
            }
          }
          MapItemsStep(elems, i, batch, ids, default, prev, summaries);
          i := i + 1;
        }
        return Some(summaries);
      case JString(s) =>
        return if s == "" then Some(map[]) else None;
      case JObject(members) =>
        return if members == [] then Some(map[]) else None;
      case JScalar(_) =>
        return None;
    }
  }

  // ---------------------------------------------------------------------
  // The fallback

  /** A dictionary giving every post of the batch the same value. */
  function Uniform(batch: seq<string>, v: Json): (r: map<string, Json>)
    ensures forall k :: k in r <==> k in batch
    ensures forall k :: k in r ==> r[k] == v
  {
    map k | k in batch :: v
  }

  /** `for post in post_batch: fallback[post] = v`. */
  method Fallback(batch: seq<string>, v: Json) returns (r: map<string, Json>)
    ensures r == Uniform(batch, v)
  {
    r := map[];
    var i := 0;
    while i < |batch|
      invariant i <= |batch|
      invariant forall k :: k in r <==> k in batch[..i]
      invariant forall k :: k in r ==> r[k] == v
    {
      r := r[batch[i] := v];
      i := i + 1;
    }
    assert batch[..i] == batch;
    assert forall k :: k in r <==> k in Uniform(batch, v);
  }

  // ---------------------------------------------------------------------
  // The retry loop's end

  /** What a retry loop over the attempts' `outcomes` ends with from attempt
      `a` on, when attempt `cut` (if there is one) finds no key ready: nothing
      at the cut, the summaries of the first attempt that finishes before it,
      or `giveUp` once every attempt has asked to go round again. */
  function Ending(outcomes: seq<Outcome>, a: nat, cut: nat, giveUp: map<string, Json>): map<string, Json>
    decreases |outcomes| - a
  {
    if a >= |outcomes| then giveUp
    else if a == cut then map[]
    else
      match outcomes[a]
      case Finished(summaries) => summaries
      case TryAgain(_) => Ending(outcomes, a + 1, cut, giveUp)
  }

  /** After `n` attempts that asked to go round again, none of them cut, the
      loop ends as it does from attempt `n`. */
  lemma {:induction false} EndingAfter(outcomes: seq<Outcome>, n: nat, cut: nat, giveUp: map<string, Json>)
    requires n <= |outcomes| && n <= cut
    requires forall a :: 0 <= a < n ==> outcomes[a].TryAgain?
    ensures Ending(outcomes, 0, cut, giveUp) == Ending(outcomes, n, cut, giveUp)
  {
    if n > 0 {
      EndingAfter(outcomes, n - 1, cut, giveUp);
      assert outcomes[n - 1].TryAgain?;
    }
  }

  // ---------------------------------------------------------------------
  // The halves merged

  /** `results1 + results2` over the batches sent, in order: each one's
      summaries override those of the batches before it. */
  function Merged(parts: seq<map<string, Json>>): map<string, Json>
    decreases |parts|
  {
    if parts == [] then map[] else Merged(parts[..|parts| - 1]) + parts[|parts| - 1]
  }

  /** Merging two runs of batches is merging their merges. */
  lemma {:induction false} MergedAppend(a: seq<map<string, Json>>, b: seq<map<string, Json>>)
    ensures Merged(a + b) == Merged(a) + Merged(b)
    decreases |b|
  {
    if b == [] {
      assert a + b == a;
      assert Merged(a) + map[] == Merged(a);
    } else {
      var b' := b[..|b| - 1];
      assert (a + b)[..|a + b| - 1] == a + b';
      MergedAppend(a, b');
      assert Merged(a) + Merged(b') + b[|b| - 1] == Merged(a) + (Merged(b') + b[|b| - 1]);
    }
  }

  /** One batch merged is that batch's summaries. */
  lemma MergedOne(m: map<string, Json>)
    ensures Merged([m]) == m
  {
    assert [m][..0] == [];
    assert map[] + m == m;
  }

  /** A post has a merged summary exactly when some batch has one for it. */
  lemma {:induction false} MergedKeys(parts: seq<map<string, Json>>, k: string)
    ensures k in Merged(parts) <==> exists i :: 0 <= i < |parts| && k in parts[i]
    decreases |parts|
  {
    if parts != [] {
      var n := |parts| - 1;
      MergedKeys(parts[..n], k);
      if k in Merged(parts[..n]) {
        var i :| 0 <= i < n && k in parts[..n][i];
        assert k in parts[i];
      }
      if exists i :: 0 <= i < |parts| && k in parts[i] {
        var i :| 0 <= i < |parts| && k in parts[i];
        if i < n {
          assert k in parts[..n][i];
        }
      }
    }
  }

  /** A post gets the summary of the last batch that has one for it. */
  lemma {:induction false} MergedLast(parts: seq<map<string, Json>>, i: nat, k: string)
    requires i < |parts| && k in parts[i]
    requires forall j :: i < j < |parts| ==> k !in parts[j]
    ensures k in Merged(parts) && Merged(parts)[k] == parts[i][k]
    decreases |parts|
  {
    var n := |parts| - 1;
    if i < n {
      assert parts[..n][i] == parts[i];
      MergedLast(parts[..n], i, k);
    }
  }

  /** The summaries of each batch sent, the `i`-th numbered `call + i`; what a
      batch ends with is `leafResult(batch, number)`. */
  function Sent(leafResult: (seq<string>, nat) -> map<string, Json>, leaves: seq<seq<string>>, call: nat): (r: seq<map<string, Json>>)
    ensures |r| == |leaves|
  {
    seq(|leaves|, i requires 0 <= i < |leaves| => leafResult(leaves[i], call + i))
  }

  /** The two halves of a split batch, merged: the batches of the first half
      numbered from `call`, those of the second from where the first stopped. */
  lemma SplitMerged(leafResult: (seq<string>, nat) -> map<string, Json>, a: seq<seq<string>>, b: seq<seq<string>>,
                    call: nat, after: nat, r1: map<string, Json>, r2: map<string, Json>)
    requires after == call + |a|
    requires r1 == Merged(Sent(leafResult, a, call)) && r2 == Merged(Sent(leafResult, b, after))
    ensures r1 + r2 == Merged(Sent(leafResult, a + b, call))
  {
    SentAppend(leafResult, a, b, call, after);
    MergedAppend(Sent(leafResult, a, call), Sent(leafResult, b, after));
  }

  lemma SentAppend(leafResult: (seq<string>, nat) -> map<string, Json>, a: seq<seq<string>>, b: seq<seq<string>>,
                   call: nat, after: nat)
    requires after == call + |a|
    ensures Sent(leafResult, a + b, call) == Sent(leafResult, a, call) + Sent(leafResult, b, after)
  {
    var l, r := Sent(leafResult, a + b, call), Sent(leafResult, a, call) + Sent(leafResult, b, after);
    forall i | 0 <= i < |a + b|
      ensures l[i] == r[i]
    {
      if i >= |a| {
        assert (a + b)[i] == b[i - |a|];
        assert call + i == after + (i - |a|);
      } else {
        assert (a + b)[i] == a[i];
      }
    }
  }

  /** A batch sent as it is ends with its own summaries. */
  lemma LeafMerged(leafResult: (seq<string>, nat) -> map<string, Json>, leaf: seq<string>, call: nat, r: map<string, Json>)
    requires r == leafResult(leaf, call)
    ensures r == Merged(Sent(leafResult, [leaf], call))
  {
    assert Sent(leafResult, [leaf], call) == [r];
    MergedOne(r);
  }

  /** `Sent` where each batch also has a value of its own (`extras[i]`) that
      what it ends with depends on. */
  function SentWith(leafResult: (seq<string>, nat, nat) -> map<string, Json>, leaves: seq<seq<string>>, call: nat,
                    extras: seq<nat>): (r: seq<map<string, Json>>)
    requires |extras| == |leaves|
    ensures |r| == |leaves|
  {
    seq(|leaves|, i requires 0 <= i < |leaves| => leafResult(leaves[i], call + i, extras[i]))
  }

  /** `SplitMerged` for `SentWith`. */
  lemma SplitMergedWith(leafResult: (seq<string>, nat, nat) -> map<string, Json>, a: seq<seq<string>>, b: seq<seq<string>>,
                        call: nat, after: nat, ea: seq<nat>, eb: seq<nat>, r1: map<string, Json>, r2: map<string, Json>)
    requires after == call + |a| && |ea| == |a| && |eb| == |b|
    requires r1 == Merged(SentWith(leafResult, a, call, ea)) && r2 == Merged(SentWith(leafResult, b, after, eb))
    ensures r1 + r2 == Merged(SentWith(leafResult, a + b, call, ea + eb))
  {
    var l, r := SentWith(leafResult, a + b, call, ea + eb), SentWith(leafResult, a, call, ea) + SentWith(leafResult, b, after, eb);
    forall i | 0 <= i < |a + b|
      ensures l[i] == r[i]
    {
      if i >= |a| {
        assert (a + b)[i] == b[i - |a|] && (ea + eb)[i] == eb[i - |a|];
        assert call + i == after + (i - |a|);
      } else {
        assert (a + b)[i] == a[i] && (ea + eb)[i] == ea[i];
      }
    }
    assert l == r;
    MergedAppend(SentWith(leafResult, a, call, ea), SentWith(leafResult, b, after, eb));
  }

  /** `LeafMerged` for `SentWith`. */
  lemma LeafMergedWith(leafResult: (seq<string>, nat, nat) -> map<string, Json>, leaf: seq<string>, call: nat, extra: nat,
                       r: map<string, Json>)
    requires r == leafResult(leaf, call, extra)
    ensures r == Merged(SentWith(leafResult, [leaf], call, [extra]))
  {
    assert SentWith(leafResult, [leaf], call, [extra]) == [r];
    MergedOne(r);
  }
}
