/** The JSON-response comment labeller (labeling/3_gemini_label.py): the
    request helpers, the batch call with its retry and key-rotation policy, and
    the three label stages every batch goes through — reading the reply onto
    the batch, the keyword-family overrides, and the 'đài' correction.

    Rows are identified by their position in the dataframe (the spreadsheet is
    read with a default RangeIndex); a comment cell is given as its Python
    `str()` text. The two regex families of `apply_regex_overrides` are
    predicates on the lowercased comment, `json.loads` is a partial function,
    and the remote model is a reply per attempt. */
module GeminiLabel {
  import opened Wrappers
  import opened Labels
  import opened JsonValues
  import Text
  import Frames
  import RateLimit

  // ---------------------------------------------------------------------
  // Request helpers

  /** `compress_text` on a string: kept whole up to `limit` characters, else
      its first `limit` characters followed by "...". */
  function CompressText(text: string, limit: nat): (r: string)
    ensures |r| <= limit + 3
    ensures |text| <= limit ==> r == text
    ensures |text| > limit ==> |r| == limit + 3 && r[..limit] == text[..limit] && r[limit..] == "..."
  {
    if |text| <= limit then text else text[..limit] + "..."
  }

  /** Compressing an already compressed text with the same limit changes nothing. */
  lemma {:induction false} CompressTextIdempotent(text: string, limit: nat)
    ensures CompressText(CompressText(text, limit), limit) == CompressText(text, limit)
  {
    if |text| > limit {
      var r := CompressText(text, limit);
      assert r[..limit] + "..." == r;
    }
  }

  /** The model name with every '-' and '.' replaced by '_'. */
  function CleanModelName(model: string): (r: string)
    ensures |r| == |model|
    ensures forall i :: 0 <= i < |r| ==> r[i] != '-' && r[i] != '.'
    ensures forall i :: 0 <= i < |r| ==> model[i] != '-' && model[i] != '.' ==> r[i] == model[i]
  {
    Text.ReplaceChar(Text.ReplaceChar(model, '-', '_'), '.', '_')
  }

  predicate EndsWith(s: string, suffix: string) {
    |suffix| <= |s| && s[|s| - |suffix|..] == suffix
  }

  /** The base file name without a trailing '.xlsx'. */
  function Stem(base: string): (r: string)
    ensures |r| <= |base|
  {
    if EndsWith(base, ".xlsx") then base[..|base| - 5] else base
  }

  /** `generate_model_specific_filename`: the base name without its '.xlsx',
      the cleaned model name and, when a timestamp (the `%Y%m%d_%H%M%S` text of
      the clock) is given, that stamp, joined by '_' and always ending in '.xlsx'. */
  function ModelSpecificFilename(base: string, model: string, stamp: Option<string>): (r: string)
    ensures EndsWith(r, ".xlsx")
    ensures |r| >= |Stem(base)| + 1 + |model| + 5
    ensures r[..|Stem(base)|] == Stem(base) && r[|Stem(base)|] == '_'
    ensures r[|Stem(base)| + 1..|Stem(base)| + 1 + |model|] == CleanModelName(model)
  {
    var stem := Stem(base);
    var tail := match stamp case Some(t) => "_" + t case None => "";
    stem + "_" + CleanModelName(model) + tail + ".xlsx"
  }

  /** The generated name is never the base name itself, so the earlier result is not overwritten. */
  lemma {:induction false} ModelSpecificFilenameIsNew(base: string, model: string, stamp: Option<string>)
    ensures ModelSpecificFilename(base, model, stamp) != base
  {
    var r := ModelSpecificFilename(base, model, stamp);
    assert |r| > |base|;
  }

  /** The `comments_data` of a batch: for each row whose stripped comment is
      non-empty, its index as text and the comment cut to 300 characters. */
  function CommentsData(batch: seq<nat>, comments: seq<string>): (r: seq<(string, string)>)
    requires forall i :: 0 <= i < |batch| ==> batch[i] < |comments|
    ensures |r| <= |batch|
    ensures forall j :: 0 <= j < |r| ==> 0 < |r[j].1| <= 303
  {
    if batch == [] then []
    else
      var rest := CommentsData(batch[1..], comments);
      assert forall i :: 1 <= i < |batch| ==> batch[i] == batch[1..][i - 1];
      var text := Text.PyStrip(comments[batch[0]]);
      if text == "" then rest
      else [(Text.NatToString(batch[0]), CompressText(text, 300))] + rest
  }

  /** A batch has no comment data exactly when every one of its stripped comments is empty. */
  lemma {:induction false} CommentsDataEmpty(batch: seq<nat>, comments: seq<string>)
    requires forall i :: 0 <= i < |batch| ==> batch[i] < |comments|
    ensures CommentsData(batch, comments) == [] <==> forall i :: 0 <= i < |batch| ==> Text.PyStrip(comments[batch[i]]) == ""
    decreases |batch|
  {
    if batch != [] {
      assert forall i :: 1 <= i < |batch| ==> batch[i] == batch[1..][i - 1];
      CommentsDataEmpty(batch[1..], comments);
    }
  }

  /** The article line of the prompt: the summary cut to 200 characters, or the
      "no summary" text when there is none. */
  function SummaryLine(summary: string): (r: string)
    ensures r != [] && |r| <= 203
    ensures summary != "" ==> r == CompressText(summary, 200)
  {
    if summary != "" then CompressText(summary, 200) else "Không có tóm tắt"
  }

  // ---------------------------------------------------------------------
  // The batch call

  /** One attempt's outcome: `generate_content` raised; it answered but reading
      `response.text` raised; or it answered with this text. */
  datatype Reply = CallFailed(error: string) | TextFailed(error: string) | Answered(text: string)

  /** The rotate-on-error test: the lowercased message mentions '429', 'quota' or 'rate'. */
  function IsQuotaError(message: string): (r: bool)
    ensures Text.Contains(message, "429") ==> r
  {
    Lower429(message);
    var m := Text.Lower(message);
    Text.Contains(m, "429") || Text.Contains(m, "quota") || Text.Contains(m, "rate")
  }

  /** Lowering keeps the digits of "429" where they are. */
  lemma Lower429(message: string)
    ensures Text.Contains(message, "429") ==> Text.Contains(Text.Lower(message), "429")
  {
    if Text.Contains(message, "429") {
      var m := Text.Lower(message);
      var i := Text.Find(message, "429").value;
      assert message[i..i + 3] == "429";
      assert m[i..i + 3] == "429" by {
        assert forall k :: i <= k < i + 3 ==> m[k] == Text.LowerChar(message[k]);
      }
      assert Text.OccursAt(m, "429", i);
    }
  }

  /** An attempt that does not end the loop: the call or the text raised, or
      the reply decoded to a number, boolean or null, whose `len()` raises a
      TypeError that the loop catches. */
  predicate Continues(r: Reply, loads: string -> Option<Json>) {
    match r
    case Answered(text) => loads(text).Some? && loads(text).value.JScalar?
    case _ => true
  }

  /** What the retry loop returns from attempt `a` on, when attempt `cut` (if
      there is one) finds no key: `{}` at the cut, once the attempts run out,
      or for a reply that is not JSON; the decoded reply of the first attempt
      that decodes to something other than a scalar. */
  function Ending(reply: nat -> Reply, loads: string -> Option<Json>, maxRetry: nat, a: nat, cut: nat): (r: Json)
    ensures r == EmptyObject || exists b :: a <= b < maxRetry && reply(b).Answered? && loads(reply(b).text) == Some(r) && !r.JScalar?
    decreases maxRetry - a
  {
    if a >= maxRetry || a == cut then EmptyObject
    else if Continues(reply(a), loads) then Ending(reply, loads, maxRetry, a + 1, cut)
    else Decided(reply(a), loads)
  }

  /** After `n` attempts that did not end the loop, none of them cut, it ends
      as it does from attempt `n`. */
  lemma {:induction false} EndingAfter(reply: nat -> Reply, loads: string -> Option<Json>, maxRetry: nat, n: nat, cut: nat)
    requires n <= maxRetry && n <= cut
    requires forall a :: 0 <= a < n ==> Continues(reply(a), loads)
    ensures Ending(reply, loads, maxRetry, 0, cut) == Ending(reply, loads, maxRetry, n, cut)
  {
    if n > 0 {
      EndingAfter(reply, loads, maxRetry, n - 1, cut);
      assert Continues(reply(n - 1), loads);
    }
  }

  /** `label_comments_batch` against the labeller's key pool: up to `maxRetry`
      attempts, each waiting for a key at the readings `clock(a)`. A batch with
      no comment text, a pool with every key at its daily cap, a reply that is
      not JSON and running out of attempts all give `{}`; a quota-like error
      rotates the key. Usage is recorded once the model has answered, before
      its text is read. */
  method LabelCommentsBatch(rm: RateLimit.RateLimitManager, batch: seq<nat>, comments: seq<string>,
                            summary: string, maxRetry: nat,
                            reply: nat -> Reply, clock: nat -> (RateLimit.Clock, RateLimit.Clock),
                            loads: string -> Option<Json>)
    returns (labels: Json, ghost cut: nat)
    requires rm.Valid()
    requires forall i :: 0 <= i < |batch| ==> batch[i] < |comments|
    modifies rm`usage, rm`keyIndex
    ensures rm.Valid()
    ensures CommentsData(batch, comments) == [] ==> labels == EmptyObject && unchanged(rm)
    ensures CommentsData(batch, comments) != [] ==> labels == Ending(reply, loads, maxRetry, 0, cut)
    ensures labels == EmptyObject
            || exists a :: 0 <= a < maxRetry && reply(a).Answered? && loads(reply(a).text) == Some(labels) && !labels.JScalar?
  {
    var data := CommentsData(batch, comments);
    if data == [] {
      return EmptyObject, 0;
    }
    var prompt := SummaryLine(summary);
    var attempt := 0;
    while attempt < maxRetry
      invariant rm.Valid() && attempt <= maxRetry
      invariant forall a :: 0 <= a < attempt ==> Continues(reply(a), loads)
      decreases maxRetry - attempt
    {
      var noKey, ended, decided := Attempt(rm, reply(attempt), clock(attempt).0, clock(attempt).1, loads);
      if noKey {
        EndingAfter(reply, loads, maxRetry, attempt, attempt);
        return EmptyObject, attempt;
      }
      if ended {
        EndingAfter(reply, loads, maxRetry, attempt, maxRetry);
        return decided, maxRetry;
      }
      attempt := attempt + 1;
    }
    EndingAfter(reply, loads, maxRetry, attempt, maxRetry);
    return EmptyObject, maxRetry;
  }

  /** What an attempt that ends the loop returns: the decoded reply, or `{}`
      for one that is not JSON. */
  function Decided(r: Reply, loads: string -> Option<Json>): Json {
    match r
    case Answered(text) => (match loads(text) case Some(v) => v case None => EmptyObject)
    case _ => EmptyObject
  }

  /** One attempt of the loop: wait for a key (`noKey` when none, or only the
      empty one, is ready); record the request once the model has answered;
      decide; rotate the key after a quota-like error. */
  method Attempt(rm: RateLimit.RateLimitManager, r: Reply, now: RateLimit.Clock, later: RateLimit.Clock, loads: string -> Option<Json>)
    returns (noKey: bool, ended: bool, decided: Json)
    requires rm.Valid()
    modifies rm`usage, rm`keyIndex
    ensures rm.Valid()
    ensures !noKey ==> ended == !Continues(r, loads)
    ensures !noKey && ended ==> decided == Decided(r, loads)
  {
    var key := rm.WaitForAvailableKey(now, later);
    if key.None? || key.value == "" {
      return true, true, EmptyObject;
    }
    var rotate := false;
    noKey, ended, decided := false, false, EmptyObject;
    match r {
    case CallFailed(e) =>
      rotate := IsQuotaError(e);
    case TextFailed(e) =>
      rm.RecordUsage(key.value);
      rotate := IsQuotaError(e);
    case Answered(text) =>
      rm.RecordUsage(key.value);
      var decoded := loads(text);
      if decoded.None? {
        return false, true, EmptyObject;
      }
      if !decoded.value.JScalar? {
        return false, true, decoded.value;
      }
      // `len()` of a number, boolean or null raises a TypeError whose
      // message ("object of type 'int' has no len()") names no quota
    }
    if rotate {
      var _ := rm.RotateKey();
    }
  }

  // ---------------------------------------------------------------------
  // Stage 1: the reply onto the batch

  /** The row and label one reply item contributes: its key must read as an
      integer (with `readInt`, which is Python's `int` on text) naming a row of
      the batch, and its value must be one of the three label strings. Any
      other item is skipped: a failed `int`, an unknown row, a string outside
      the label set, or a value that is not a string (a number is never in the
      set; a list or object is unhashable and the TypeError is caught). */
  function Entry(item: (string, Json), batch: seq<nat>, readInt: string -> Option<int>): Option<(nat, Label)> {
    var key := readInt(item.0);
    if key.Some? && key.value >= 0 && key.value as nat in batch && item.1.JString? && FromName(item.1.s).Some?
    then Some((key.value as nat, FromName(item.1.s).value))
    else None
  }

  /** Item `j` of the reply names row `p`. */
  predicate NamesRow(items: seq<(string, Json)>, j: nat, p: nat, batch: seq<nat>, readInt: string -> Option<int>)
    requires j < |items|
  {
    Entry(items[j], batch, readInt).Some? && Entry(items[j], batch, readInt).value.0 == p
  }

  /** The first loop of `parse_json_labels` over the first `n` items, the later item winning. */
  function ReplyLabels(items: seq<(string, Json)>, n: nat, batch: seq<nat>, readInt: string -> Option<int>): (r: map<nat, Label>)
    requires n <= |items|
    ensures forall p :: p in r ==> p in batch
  {
    if n == 0 then map[]
    else
      var prev := ReplyLabels(items, n - 1, batch, readInt);
      match Entry(items[n - 1], batch, readInt)
      case Some((p, l)) => prev[p := l]
      case None => prev
  }

  /** A row gets a label from the reply exactly when some item names it; the
      label is that of the last such item. */
  lemma {:induction false} ReplyLabelsAt(items: seq<(string, Json)>, n: nat, batch: seq<nat>, readInt: string -> Option<int>, p: nat)
    requires n <= |items|
    ensures p in ReplyLabels(items, n, batch, readInt) <==> exists j :: 0 <= j < n && NamesRow(items, j, p, batch, readInt)
    ensures p in ReplyLabels(items, n, batch, readInt) ==>
              exists j :: 0 <= j < n && NamesRow(items, j, p, batch, readInt)
                          && ReplyLabels(items, n, batch, readInt)[p] == Entry(items[j], batch, readInt).value.1
                          && forall j' :: j < j' < n ==> !NamesRow(items, j', p, batch, readInt)
  {
    if n > 0 {
      var prev, r := ReplyLabels(items, n - 1, batch, readInt), ReplyLabels(items, n, batch, readInt);
      ReplyLabelsAt(items, n - 1, batch, readInt, p);
      if NamesRow(items, n - 1, p, batch, readInt) {
        assert r[p] == Entry(items[n - 1], batch, readInt).value.1;
      } else {
        assert (p in r <==> p in prev) && (p in r ==> r[p] == prev[p]);
        if p in prev {
          var j :| 0 <= j < n - 1 && NamesRow(items, j, p, batch, readInt)
                   && prev[p] == Entry(items[j], batch, readInt).value.1
                   && forall j' :: j < j' < n - 1 ==> !NamesRow(items, j', p, batch, readInt);
          assert forall j' :: j < j' < n ==> !NamesRow(items, j', p, batch, readInt);
        } else {
          assert forall j :: 0 <= j < n ==> !NamesRow(items, j, p, batch, readInt);
        }
      }
    }
  }

  /** `parse_json_labels`: None when the decoded reply is not a dictionary (its
      `.items()` raises); otherwise a label for every row of the batch. */
  function ParsedLabels(reply: Json, batch: seq<nat>): (r: Option<map<nat, Label>>)
    ensures r.Some? <==> reply.JObject?
    ensures r.Some? ==> forall p :: p in r.value <==> p in batch
  {
    match reply
    case JObject(items) =>
      var d := JsonValues.Dict(items);
      Some(FillMissing(ReplyLabels(d, |d|, batch, Text.PyInt), batch))
    case _ => None
  }

  /** The first loop of `parse_json_labels` as written, over `result.items()`,
      reading keys with `readInt`. */
  method ReadReplyItems(items: seq<(string, Json)>, batch: seq<nat>, readInt: string -> Option<int>)
    returns (labels: map<nat, Label>)
    ensures labels == ReplyLabels(items, |items|, batch, readInt)
  {
    labels := map[];
    var j := 0;
    while j < |items|
      invariant j <= |items| && labels == ReplyLabels(items, j, batch, readInt)
    {
      var key := readInt(items[j].0);
      var value := items[j].1;
      if key.Some? && key.value >= 0 && key.value as nat in batch && value.JString? && FromName(value.s).Some? {
        labels := labels[key.value as nat := FromName(value.s).value];
      }
      j := j + 1;
    }
  }

  /** The second loop of `parse_json_labels` as written. */
  method FillBatchRows(replied: map<nat, Label>, batch: seq<nat>) returns (labels: map<nat, Label>)
    ensures labels == FillMissing(replied, batch)
  {
    labels := replied;
    var i := 0;
    while i < |batch|
      invariant i <= |batch|
      invariant forall p :: p in labels <==> p in replied || p in batch[..i]
      invariant forall p :: p in replied ==> labels[p] == replied[p]
      invariant forall p :: p in labels && p !in replied ==> labels[p] == KhongLienQuan
    {
      if batch[i] !in labels {
        labels := labels[batch[i] := KhongLienQuan];
      }
      i := i + 1;
      assert forall p :: p in batch[..i] <==> p in batch[..i - 1] || p == batch[i - 1] by {
        assert batch[..i] == batch[..i - 1] + [batch[i - 1]];
      }
    }
    assert batch[..|batch|] == batch;
  }

  /** `parse_json_labels` as written. */
  method ParseJsonLabels(reply: Json, batch: seq<nat>) returns (r: Option<map<nat, Label>>)
    ensures r == ParsedLabels(reply, batch)
  {
    if !reply.JObject? {
      return None;
    }
    var replied := ReadReplyItems(JsonValues.Dict(reply.items), batch, Text.PyInt);
    var labels := FillBatchRows(replied, batch);
    return Some(labels);
  }

  /** Every row of the batch gets the label of the last entry of the decoded
      dictionary naming it, and KHONG_LIEN_QUAN when no entry does; the
      dictionary holds each key of the reply once, with its last value. */
  lemma {:induction false} ParsedLabelsAt(items: seq<(string, Json)>, batch: seq<nat>, p: nat)
    requires p in batch
    ensures var d := JsonValues.Dict(items);
            var r := ParsedLabels(JObject(items), batch).value;
            (forall j :: 0 <= j < |d| ==> !NamesRow(d, j, p, batch, Text.PyInt)) ==> r[p] == KhongLienQuan
    ensures var d := JsonValues.Dict(items);
            var r := ParsedLabels(JObject(items), batch).value;
            (exists j :: 0 <= j < |d| && NamesRow(d, j, p, batch, Text.PyInt)) ==>
              exists j :: 0 <= j < |d| && NamesRow(d, j, p, batch, Text.PyInt)
                          && r[p] == Entry(d[j], batch, Text.PyInt).value.1
                          && forall j' :: j < j' < |d| ==> !NamesRow(d, j', p, batch, Text.PyInt)
    ensures var d := JsonValues.Dict(items);
            JsonValues.DistinctKeys(d) && forall j :: 0 <= j < |d| ==> JsonValues.Get(items, d[j].0) == Some(d[j].1)
  {
    var d := JsonValues.Dict(items);
    ReplyLabelsAt(d, |d|, batch, Text.PyInt, p);
    JsonValues.DictFacts(items);
    forall j | 0 <= j < |d|
      ensures JsonValues.Get(items, d[j].0) == Some(d[j].1)
    {
      JsonValues.GetDistinct(d, j);
    }
  }

  /** A repeated key counts with its last value only: `{"5": "PHAN_DONG", "5":
      "xyz"}` leaves row 5 at KHONG_LIEN_QUAN. */
  lemma {:induction false} RepeatedKeyLastValue()
    ensures ParsedLabels(JObject([("5", JString("PHAN_DONG")), ("5", JString("xyz"))]), [5]).value[5] == KhongLienQuan
  {
    var items := [("5", JString("PHAN_DONG")), ("5", JString("xyz"))];
    assert items[..1][..0] == [];
    assert JsonValues.Dict(items[..1][..0]) == [];
    assert JsonValues.KeyAt([], "5") == None;
    assert JsonValues.Dict(items[..1]) == [("5", JString("PHAN_DONG"))];
    assert JsonValues.KeyAt([("5", JString("PHAN_DONG"))], "5") == Some(0);
    assert JsonValues.Dict(items) == [("5", JString("xyz"))];
    assert FromName("xyz").None?;
  }

  // ---------------------------------------------------------------------
  // Stage 2: keyword-family overrides

  /** The label `apply_regex_overrides` writes on one row, given the row's
      label (read with the KHONG_LIEN_QUAN default) and whether the
      anti-government and the anti-reactionary families match its text; None
      when it writes nothing, which is also when `updated` is not incremented. */
  function Forced(current: Option<Label>, antiGovt: bool, antiReactionary: bool): Option<Label> {
    var cur := current.GetOr(KhongLienQuan);
    if antiGovt && cur != PhanDong then Some(PhanDong)
    else if antiReactionary && !antiGovt && cur != KhongPhanDong then Some(KhongPhanDong)
    else None
  }

  /** The label a row ends with: an anti-government match means PHAN_DONG, else
      an anti-reactionary match means KHONG_PHAN_DONG, else the label is kept;
      a write happens exactly when the row did not already hold that label. */
  lemma {:induction false} ForcedOutcome(current: Option<Label>, antiGovt: bool, antiReactionary: bool)
    ensures var after := if Forced(current, antiGovt, antiReactionary).Some? then Forced(current, antiGovt, antiReactionary) else current;
            after == Overridden(current, antiGovt, antiReactionary)
    ensures Forced(current, antiGovt, antiReactionary).Some? <==>
              (antiGovt && current.GetOr(KhongLienQuan) != PhanDong)
              || (!antiGovt && antiReactionary && current.GetOr(KhongLienQuan) != KhongPhanDong)
  {
  }

  function Lookup(labels: map<nat, Label>, p: nat): Option<Label> {
    if p in labels then Some(labels[p]) else None
  }

  function Put(labels: map<nat, Label>, p: nat, l: Option<Label>): map<nat, Label> {
    match l case Some(v) => labels[p := v] case None => labels
  }

  lemma {:induction false} PutLookup(labels: map<nat, Label>, p: nat, l: Option<Label>, k: nat)
    ensures Lookup(Put(labels, p, l), k) == if k == p && l.Some? then l else Lookup(labels, k)
  {
  }

  /** The label a row ends the override pass with, given the one it started with. */
  function Overridden(current: Option<Label>, antiGovt: bool, antiReactionary: bool): Option<Label> {
    if antiGovt then Some(PhanDong) else if antiReactionary then Some(KhongPhanDong) else current
  }

  /** `apply_regex_overrides` over the first `n` rows: the labels and the number of updates. */
  function RegexOverrides(labels: map<nat, Label>, batch: seq<nat>, n: nat, texts: seq<string>,
                          antiGovt: string -> bool, antiReactionary: string -> bool): (r: (map<nat, Label>, nat))
    requires n <= |batch| && forall i :: 0 <= i < |batch| ==> batch[i] < |texts|
    ensures r.1 <= n
  {
    if n == 0 then (labels, 0)
    else
      var prev := RegexOverrides(labels, batch, n - 1, texts, antiGovt, antiReactionary);
      var p := batch[n - 1];
      var text := texts[p];
      var cur := Lookup(prev.0, p);
      assert batch[..n] == batch[..n - 1] + [p];
      var forced := Forced(cur, antiGovt(text), antiReactionary(text));
      (Put(prev.0, p, forced), prev.1 + if forced.Some? then 1 else 0)
  }

  /** The pass keeps every labelled row and labels only rows of the batch. */
  lemma {:induction false} RegexOverridesKeys(labels: map<nat, Label>, batch: seq<nat>, n: nat, texts: seq<string>,
                                              antiGovt: string -> bool, antiReactionary: string -> bool)
    requires n <= |batch| && forall i :: 0 <= i < |batch| ==> batch[i] < |texts|
    ensures var r := RegexOverrides(labels, batch, n, texts, antiGovt, antiReactionary).0;
            (forall p :: p in labels ==> p in r) && forall p :: p in r ==> p in labels || p in batch[..n]
  {
    if n > 0 {
      RegexOverridesKeys(labels, batch, n - 1, texts, antiGovt, antiReactionary);
      assert batch[..n] == batch[..n - 1] + [batch[n - 1]];
    }
  }

  /** One more row of the override pass. */
  lemma {:induction false} RegexOverridesStep(labels: map<nat, Label>, batch: seq<nat>, n: nat, texts: seq<string>,
                           antiGovt: string -> bool, antiReactionary: string -> bool,
                           prev: (map<nat, Label>, nat), p: nat, forced: Option<Label>)
    requires n < |batch| && forall i :: 0 <= i < |batch| ==> batch[i] < |texts|
    requires prev == RegexOverrides(labels, batch, n, texts, antiGovt, antiReactionary) && p == batch[n]
    requires forced == Forced(Lookup(prev.0, p), antiGovt(texts[p]), antiReactionary(texts[p]))
    ensures RegexOverrides(labels, batch, n + 1, texts, antiGovt, antiReactionary)
            == (Put(prev.0, p, forced), prev.1 + if forced.Some? then 1 else 0)
  {
  }

  /** `apply_regex_overrides` as written: one pass over the batch rows. */
  method ApplyRegexOverrides(labels: map<nat, Label>, batch: seq<nat>, texts: seq<string>,
                             antiGovt: string -> bool, antiReactionary: string -> bool)
    returns (r: map<nat, Label>, updated: nat)
    requires forall i :: 0 <= i < |batch| ==> batch[i] < |texts|
    ensures (r, updated) == RegexOverrides(labels, batch, |batch|, texts, antiGovt, antiReactionary)
  {
    r, updated := labels, 0;
    var i := 0;
    while i < |batch|
      invariant i <= |batch|
      invariant (r, updated) == RegexOverrides(labels, batch, i, texts, antiGovt, antiReactionary)
    {
      var p := batch[i];
      var text := texts[p];
      var isAntiGovt := antiGovt(text);
      var isAntiReactionary := antiReactionary(text);
      var current := if p in r then r[p] else KhongLienQuan;
      ghost var forced := Forced(Lookup(r, p), isAntiGovt, isAntiReactionary);
      RegexOverridesStep(labels, batch, i, texts, antiGovt, antiReactionary, (r, updated), p, forced);
      if isAntiGovt && current != PhanDong {
        r := r[p := PhanDong];
        updated := updated + 1;
      } else if isAntiReactionary && !isAntiGovt && current != KhongPhanDong {
        r := r[p := KhongPhanDong];
        updated := updated + 1;
      }
      i := i + 1;
    }
  }

  /** Row by row, over distinct dataframe positions: a row of the batch ends
      PHAN_DONG on an anti-government match, else KHONG_PHAN_DONG on an
      anti-reactionary match, else with the label it had; no other row changes. */
  lemma {:induction false} RegexOverridesAt(labels: map<nat, Label>, batch: seq<nat>, n: nat, texts: seq<string>,
                                            antiGovt: string -> bool, antiReactionary: string -> bool, k: nat)
    requires n <= |batch| && forall i :: 0 <= i < |batch| ==> batch[i] < |texts|
    requires Frames.Distinct(batch)
    ensures var r := RegexOverrides(labels, batch, n, texts, antiGovt, antiReactionary).0;
            Lookup(r, k) == if k in batch[..n] then Overridden(Lookup(labels, k), antiGovt(texts[k]), antiReactionary(texts[k]))
                            else Lookup(labels, k)
  {
    if n > 0 {
      RegexOverridesAt(labels, batch, n - 1, texts, antiGovt, antiReactionary, k);
      var p := batch[n - 1];
      var prev := RegexOverrides(labels, batch, n - 1, texts, antiGovt, antiReactionary).0;
      var forced := Forced(Lookup(prev, p), antiGovt(texts[p]), antiReactionary(texts[p]));
      PutLookup(prev, p, forced, k);
      assert batch[..n] == batch[..n - 1] + [p];
      if k == p {
        Frames.DistinctBefore(batch, n);
        ForcedOutcome(Lookup(labels, k), antiGovt(texts[k]), antiReactionary(texts[k]));
      }
    }
  }

  /** The rows whose label the override pass changes, among the first `n`. */
  function ChangedRows(labels: map<nat, Label>, batch: seq<nat>, n: nat, texts: seq<string>,
                       antiGovt: string -> bool, antiReactionary: string -> bool): set<nat>
    requires n <= |batch| && forall i :: 0 <= i < |batch| ==> batch[i] < |texts|
  {
    set i | 0 <= i < n && Forced(Lookup(labels, batch[i]), antiGovt(texts[batch[i]]),
                                 antiReactionary(texts[batch[i]])).Some? :: batch[i]
  }

  /** Extending the pass by one row adds that row to the changed ones exactly when it is forced. */
  lemma {:induction false} ChangedRowsStep(labels: map<nat, Label>, batch: seq<nat>, n: nat, texts: seq<string>,
                        antiGovt: string -> bool, antiReactionary: string -> bool)
    requires 0 < n <= |batch| && forall i :: 0 <= i < |batch| ==> batch[i] < |texts|
    ensures var p := batch[n - 1];
            ChangedRows(labels, batch, n, texts, antiGovt, antiReactionary)
            == ChangedRows(labels, batch, n - 1, texts, antiGovt, antiReactionary)
               + if Forced(Lookup(labels, p), antiGovt(texts[p]), antiReactionary(texts[p])).Some? then {p} else {}
    ensures Frames.Distinct(batch) ==> batch[n - 1] !in ChangedRows(labels, batch, n - 1, texts, antiGovt, antiReactionary)
    ensures var p := batch[n - 1];
            Frames.Distinct(batch) ==>
              |ChangedRows(labels, batch, n, texts, antiGovt, antiReactionary)|
              == |ChangedRows(labels, batch, n - 1, texts, antiGovt, antiReactionary)|
                 + if Forced(Lookup(labels, p), antiGovt(texts[p]), antiReactionary(texts[p])).Some? then 1 else 0
  {
    var p := batch[n - 1];
    var before := ChangedRows(labels, batch, n - 1, texts, antiGovt, antiReactionary);
    var after := ChangedRows(labels, batch, n, texts, antiGovt, antiReactionary);
    var extra := if Forced(Lookup(labels, p), antiGovt(texts[p]), antiReactionary(texts[p])).Some? then {p} else {};
    forall q | q in after ensures q in before + extra {
      var i :| 0 <= i < n && Forced(Lookup(labels, batch[i]), antiGovt(texts[batch[i]]),
                                    antiReactionary(texts[batch[i]])).Some? && q == batch[i];
      if i < n - 1 {
        assert q in before;
      }
    }
    forall q | q in before ensures q in after {
      var i :| 0 <= i < n - 1 && Forced(Lookup(labels, batch[i]), antiGovt(texts[batch[i]]),
                                        antiReactionary(texts[batch[i]])).Some? && q == batch[i];
      assert q in after;
    }
    assert extra <= after;
    assert after == before + extra;
    if Frames.Distinct(batch) {
      forall q | q in before ensures q != p {
        var i :| 0 <= i < n - 1 && Forced(Lookup(labels, batch[i]), antiGovt(texts[batch[i]]),
                                          antiReactionary(texts[batch[i]])).Some? && q == batch[i];
      }
    }
  }

  /** `updated` counts exactly the rows whose label changed, each once. */
  lemma {:induction false} RegexOverridesCount(labels: map<nat, Label>, batch: seq<nat>, n: nat, texts: seq<string>,
                                               antiGovt: string -> bool, antiReactionary: string -> bool)
    requires n <= |batch| && forall i :: 0 <= i < |batch| ==> batch[i] < |texts|
    requires Frames.Distinct(batch)
    ensures RegexOverrides(labels, batch, n, texts, antiGovt, antiReactionary).1
            == |ChangedRows(labels, batch, n, texts, antiGovt, antiReactionary)|
  {
    if n > 0 {
      RegexOverridesCount(labels, batch, n - 1, texts, antiGovt, antiReactionary);
      var p := batch[n - 1];
      var prev := RegexOverrides(labels, batch, n - 1, texts, antiGovt, antiReactionary);
      RegexOverridesAt(labels, batch, n - 1, texts, antiGovt, antiReactionary, p);
      Frames.DistinctBefore(batch, n);
      assert Lookup(prev.0, p) == Lookup(labels, p);
      var forced := Forced(Lookup(labels, p), antiGovt(texts[p]), antiReactionary(texts[p]));
      RegexOverridesStep(labels, batch, n - 1, texts, antiGovt, antiReactionary, prev, p, forced);
      ChangedRowsStep(labels, batch, n, texts, antiGovt, antiReactionary);
    } else {
      assert ChangedRows(labels, batch, 0, texts, antiGovt, antiReactionary) == {};
    }
  }

  // ---------------------------------------------------------------------
  // Stage 3: the 'đài' correction

  const StrongKeywords: seq<string> := [
    "việt cộng", "đảng cướp", "csvn", "cộng sản", "độc tài", "bò đỏ",
    "phục quốc", "phản động", "ba que", "3 que", "bán nước"]

  /** The lowercased text mentions 'đài' and none of the strong political keywords. */
  predicate DaiOnly(text: string) {
    Text.Contains(text, "đài") && forall k :: 0 <= k < |StrongKeywords| ==> !Text.Contains(text, StrongKeywords[k])
  }

  /** `post_process_dai_mentions` over the first `n` rows: a PHAN_DONG row whose
      text only mentions 'đài' becomes KHONG_LIEN_QUAN; the labels and the count. */
  function DaiCorrection(labels: map<nat, Label>, batch: seq<nat>, n: nat, texts: seq<string>): (r: (map<nat, Label>, nat))
    requires n <= |batch| && forall i :: 0 <= i < |batch| ==> batch[i] < |texts|
    ensures r.0.Keys == labels.Keys
    ensures forall p :: p in labels && r.0[p] != labels[p] ==> labels[p] == PhanDong && r.0[p] == KhongLienQuan
    ensures r.1 <= n
  {
    if n == 0 then (labels, 0)
    else
      var prev := DaiCorrection(labels, batch, n - 1, texts);
      var p := batch[n - 1];
      if p in prev.0 && prev.0[p] == PhanDong && DaiOnly(texts[p])
      then (prev.0[p := KhongLienQuan], prev.1 + 1)
      else prev
  }

  /** `post_process_dai_mentions` as written. */
  method PostProcessDaiMentions(labels: map<nat, Label>, batch: seq<nat>, texts: seq<string>)
    returns (r: map<nat, Label>, updated: nat)
    requires forall i :: 0 <= i < |batch| ==> batch[i] < |texts|
    ensures (r, updated) == DaiCorrection(labels, batch, |batch|, texts)
  {
    r, updated := labels, 0;
    var i := 0;
    while i < |batch|
      invariant i <= |batch| && (r, updated) == DaiCorrection(labels, batch, i, texts)
    {
      var p := batch[i];
      i := i + 1;
      if p !in r || r[p] != PhanDong {
        continue;
      }
      var text := texts[p];
      if DaiOnly(text) {
        r := r[p := KhongLienQuan];
        updated := updated + 1;
      }
    }
  }

  /** Row by row: a PHAN_DONG row of the batch whose text only mentions 'đài'
      ends KHONG_LIEN_QUAN; every other label is kept. */
  lemma {:induction false} DaiCorrectionAt(labels: map<nat, Label>, batch: seq<nat>, n: nat, texts: seq<string>, k: nat)
    requires n <= |batch| && forall i :: 0 <= i < |batch| ==> batch[i] < |texts|
    requires k in labels
    ensures var r := DaiCorrection(labels, batch, n, texts).0;
            r[k] == if k in batch[..n] && labels[k] == PhanDong && DaiOnly(texts[k])
                    then KhongLienQuan else labels[k]
  {
    if n > 0 {
      DaiCorrectionAt(labels, batch, n - 1, texts, k);
      assert batch[..n] == batch[..n - 1] + [batch[n - 1]];
    }
  }

  /** Applying the correction a second time changes nothing and counts nothing. */
  lemma {:induction false} DaiCorrectionIdempotent(labels: map<nat, Label>, batch: seq<nat>, texts: seq<string>)
    requires forall i :: 0 <= i < |batch| ==> batch[i] < |texts|
    ensures var once := DaiCorrection(labels, batch, |batch|, texts).0;
            DaiCorrection(once, batch, |batch|, texts) == (once, 0)
  {
    var once := DaiCorrection(labels, batch, |batch|, texts).0;
    SecondPassNoop(labels, once, batch, |batch|, texts);
  }

  lemma {:induction false} SecondPassNoop(labels: map<nat, Label>, once: map<nat, Label>, batch: seq<nat>, n: nat, texts: seq<string>)
    requires n <= |batch| && forall i :: 0 <= i < |batch| ==> batch[i] < |texts|
    requires once == DaiCorrection(labels, batch, |batch|, texts).0
    ensures DaiCorrection(once, batch, n, texts) == (once, 0)
  {
    if n > 0 {
      SecondPassNoop(labels, once, batch, n - 1, texts);
      var p := batch[n - 1];
      if p in once && once[p] == PhanDong && DaiOnly(texts[p]) {
        DaiCorrectionAt(labels, batch, |batch|, texts, p);
        assert false;
      }
    }
  }

  // ---------------------------------------------------------------------
  // The stages of one batch, in the order `run_optimized_labeling` runs them

  /** The labels one batch writes: None when the reply is not a dictionary. */
  function BatchLabels(reply: Json, batch: seq<nat>, texts: seq<string>,
                       antiGovt: string -> bool, antiReactionary: string -> bool): (r: Option<map<nat, Label>>)
    requires forall i :: 0 <= i < |batch| ==> batch[i] < |texts|
    ensures r.Some? <==> reply.JObject?
    ensures r.Some? ==> forall p :: p in r.value <==> p in batch
  {
    match ParsedLabels(reply, batch)
    case None => None
    case Some(parsed) =>
      var overridden := RegexOverrides(parsed, batch, |batch|, texts, antiGovt, antiReactionary).0;
      assert batch[..|batch|] == batch;
      RegexOverridesKeys(parsed, batch, |batch|, texts, antiGovt, antiReactionary);
      Some(DaiCorrection(overridden, batch, |batch|, texts).0)
  }

  /** The labels the three stages leave are the batch's labels, one per row of the batch. */
  lemma {:induction false} StagesLabels(reply: Json, batch: seq<nat>, texts: seq<string>, antiGovt: string -> bool,
                     antiReactionary: string -> bool, parsed: map<nat, Label>, overridden: map<nat, Label>,
                     corrected: map<nat, Label>)
    requires forall i :: 0 <= i < |batch| ==> batch[i] < |texts|
    requires ParsedLabels(reply, batch) == Some(parsed)
    requires overridden == RegexOverrides(parsed, batch, |batch|, texts, antiGovt, antiReactionary).0
    requires corrected == DaiCorrection(overridden, batch, |batch|, texts).0
    ensures BatchLabels(reply, batch, texts, antiGovt, antiReactionary) == Some(corrected)
    ensures forall p :: p in corrected <==> p in batch
  {
  }

  /** What the stage order means for a row: a match of the anti-government
      family yields PHAN_DONG unless the text only mentions 'đài', in which case
      the later correction turns it into KHONG_LIEN_QUAN; otherwise an
      anti-reactionary match yields KHONG_PHAN_DONG; with neither, the reply's
      label stands, except that a 'đài'-only PHAN_DONG becomes KHONG_LIEN_QUAN. */
  lemma {:induction false} BatchLabelsAt(items: seq<(string, Json)>, batch: seq<nat>, texts: seq<string>,
                      antiGovt: string -> bool, antiReactionary: string -> bool, p: nat)
    requires forall i :: 0 <= i < |batch| ==> batch[i] < |texts|
    requires Frames.Distinct(batch) && p in batch
    ensures var r := BatchLabels(JObject(items), batch, texts, antiGovt, antiReactionary).value;
            var text := texts[p];
            var replied := ParsedLabels(JObject(items), batch).value[p];
            r[p] == if antiGovt(text) then (if DaiOnly(text) then KhongLienQuan else PhanDong)
                    else if antiReactionary(text) then KhongPhanDong
                    else if replied == PhanDong && DaiOnly(text) then KhongLienQuan
                    else replied
  {
    var parsed := ParsedLabels(JObject(items), batch).value;
    assert batch[..|batch|] == batch;
    RegexOverridesAt(parsed, batch, |batch|, texts, antiGovt, antiReactionary, p);
    var overridden := RegexOverrides(parsed, batch, |batch|, texts, antiGovt, antiReactionary).0;
    DaiCorrectionAt(overridden, batch, |batch|, texts, p);
  }

  // ---------------------------------------------------------------------
  // The labelling run

  /** The lowercased comment column the keyword stages read. */
  function LowerColumn(comments: seq<string>): (r: seq<string>)
    ensures |r| == |comments|
  {
    seq(|comments|, i requires 0 <= i < |comments| => Text.Lower(comments[i]))
  }

  /** The positions `lo`, ..., `hi - 1`: the index of `df.iloc[lo:hi]`. */
  function Range(lo: nat, hi: nat): (r: seq<nat>)
    requires lo <= hi
    ensures |r| == hi - lo && forall i :: 0 <= i < |r| ==> r[i] == lo + i
    decreases hi - lo
  {
    if lo == hi then [] else [lo] + Range(lo + 1, hi)
  }

  /** `dropna()` on a column: its non-null values, in row order. */
  function NonNull(col: seq<Option<string>>): (r: seq<string>)
    ensures forall p :: 0 <= p < |col| && col[p].Some? ==> col[p].value in r
    ensures forall i :: 0 <= i < |r| ==> Some(r[i]) in col
  {
    if col == [] then []
    else
      var rest := NonNull(col[1..]);
      assert forall p :: 1 <= p < |col| ==> col[p] == col[1..][p - 1];
      if col[0].Some? then [col[0].value] + rest else rest
  }

  /** `for idx, label in labels.items(): df.loc[idx, "label"] = label`. */
  method WriteLabels(col: seq<string>, labels: map<nat, Label>) returns (r: seq<string>)
    requires forall p :: p in labels ==> p < |col|
    ensures |r| == |col|
    ensures r == Written(col, labels)
  {
    r := col;
    var rest := labels.Keys;
    while rest != {}
      invariant rest <= labels.Keys && |r| == |col|
      invariant forall p :: 0 <= p < |col| ==> r[p] == if p in labels && p !in rest then labels[p].Name() else col[p]
      decreases |rest|
    {
      var p :| p in rest;
      r := r[p := labels[p].Name()];
      rest := rest - {p};
    }
  }

  /** The label column once one batch's labels are written onto it. */
  function Written(col: seq<string>, labels: map<nat, Label>): (r: seq<string>)
    ensures |r| == |col|
  {
    seq(|col|, p requires 0 <= p < |col| => if p in labels then labels[p].Name() else col[p])
  }

  /** The label column once the batches' labels are written in call order, a
      later batch overwriting an earlier one. */
  function Overlay(col: seq<string>, written: seq<map<nat, Label>>): (r: seq<string>)
    ensures |r| == |col|
    decreases |written|
  {
    if written == [] then col
    else Written(Overlay(col, written[..|written| - 1]), written[|written| - 1])
  }

  /** The last batch whose labels name row `p`. */
  function LastWith(written: seq<map<nat, Label>>, p: nat): (r: Option<nat>)
    ensures r.Some? ==> r.value < |written| && p in written[r.value]
                        && forall b :: r.value < b < |written| ==> p !in written[b]
    ensures r.None? <==> forall b :: 0 <= b < |written| ==> p !in written[b]
    decreases |written|
  {
    if written == [] then None
    else if p in written[|written| - 1] then Some(|written| - 1)
    else LastWith(written[..|written| - 1], p)
  }

  /** A cell of the overlay holds the label of the last batch naming its row,
      and its old value when no batch does. */
  lemma {:induction false} OverlayAt(col: seq<string>, written: seq<map<nat, Label>>, p: nat)
    requires p < |col|
    ensures Overlay(col, written)[p] == match LastWith(written, p)
                                         case Some(b) => written[b][p].Name()
                                         case None => col[p]
    decreases |written|
  {
    if written != [] {
      var n := |written| - 1;
      var init, last := written[..n], written[n];
      OverlayAt(col, init, p);
      LastWithNext(written, p);
      assert Overlay(col, written) == Written(Overlay(col, init), last);
      assert Overlay(col, written)[p] == if p in last then last[p].Name() else Overlay(col, init)[p];
    }
  }

  /** The last batch naming a row: the final batch if it does, else the last
      of the ones before. */
  lemma LastWithNext(written: seq<map<nat, Label>>, p: nat)
    requires written != []
    ensures LastWith(written, p) == if p in written[|written| - 1] then Some(|written| - 1)
                                    else LastWith(written[..|written| - 1], p)
  {
  }

  /** Writing one more batch. */
  lemma {:induction false} OverlayNext(col: seq<string>, written: seq<map<nat, Label>>, labels: map<nat, Label>)
    ensures Overlay(col, written + [labels]) == Written(Overlay(col, written), labels)
  {
    assert (written + [labels])[..|written|] == written;
  }

  /** Writing two runs of batches one after the other. */
  lemma {:induction false} OverlayAppend(col: seq<string>, first: seq<map<nat, Label>>, second: seq<map<nat, Label>>)
    ensures Overlay(col, first + second) == Overlay(Overlay(col, first), second)
    decreases |second|
  {
    if second == [] {
      assert first + second == first;
    } else {
      var last := |second| - 1;
      assert first + second == (first + second[..last]) + [second[last]];
      OverlayNext(col, first + second[..last], second[last]);
      OverlayAppend(col, first, second[..last]);
      OverlayNext(Overlay(col, first), second[..last], second[last]);
      assert second == second[..last] + [second[last]];
    }
  }

  /** The `n` batches of `group` are those of `batches` from position `at` on. */
  predicate Aligned(batches: seq<seq<nat>>, at: nat, group: seq<seq<nat>>, n: nat) {
    at + n <= |batches| && n <= |group| && forall b :: 0 <= b < n ==> batches[at + b] == group[b]
  }

  /** Every row a batch names is a row of the sheet. */
  predicate Within(batches: seq<seq<nat>>, n: nat) {
    forall b, i :: 0 <= b < |batches| && 0 <= i < |batches[b]| ==> batches[b][i] < n
  }

  /** What one call decodes: `{}` for a batch without comment text, otherwise
      how the retry loop of three attempts ends. */
  function Outcome(batch: seq<nat>, comments: seq<string>, reply: nat -> Reply,
                   loads: string -> Option<Json>, cut: nat): Json
    requires forall i :: 0 <= i < |batch| ==> batch[i] < |comments|
  {
    if CommentsData(batch, comments) == [] then EmptyObject else Ending(reply, loads, 3, 0, cut)
  }

  /** What the calls for the first `|cuts|` batches decode, batch `b` from
      call `calls + b`, whose key wait is cut at attempt `cuts[b]`. */
  function Outcomes(batches: seq<seq<nat>>, comments: seq<string>, reply: nat -> nat -> Reply, calls: nat,
                    loads: string -> Option<Json>, cuts: seq<nat>): (r: seq<Json>)
    requires |cuts| <= |batches| && Within(batches, |comments|)
    ensures |r| == |cuts|
  {
    seq(|cuts|, b requires 0 <= b < |cuts| => Outcome(batches[b], comments, reply(calls + b), loads, cuts[b]))
  }

  /** Every call decoded a dictionary. */
  predicate Objects(decodes: seq<Json>) {
    forall b :: 0 <= b < |decodes| ==> decodes[b].JObject?
  }

  /** The labels the first `|decodes|` batches write, from what their calls decoded. */
  function Labelled(batches: seq<seq<nat>>, decodes: seq<Json>, texts: seq<string>,
                    antiGovt: string -> bool, antiReactionary: string -> bool): (r: seq<map<nat, Label>>)
    requires |decodes| <= |batches| && Within(batches, |texts|) && Objects(decodes)
    ensures |r| == |decodes|
  {
    seq(|decodes|, b requires 0 <= b < |decodes| => BatchLabels(decodes[b], batches[b], texts, antiGovt, antiReactionary).value)
  }

  /** A labelled batch names exactly its own rows. */
  lemma {:induction false} LabelledKeys(batches: seq<seq<nat>>, decodes: seq<Json>, texts: seq<string>,
                     antiGovt: string -> bool, antiReactionary: string -> bool, b: nat, p: nat)
    requires |decodes| <= |batches| && Within(batches, |texts|) && Objects(decodes) && b < |decodes|
    ensures p in Labelled(batches, decodes, texts, antiGovt, antiReactionary)[b] <==> p in batches[b]
  {
    assert Labelled(batches, decodes, texts, antiGovt, antiReactionary)[b]
           == BatchLabels(decodes[b], batches[b], texts, antiGovt, antiReactionary).value;
  }

  /** The labelled batches of a run of groups: those of the first groups, then
      those of the next group, whose batches follow in the run. */
  lemma {:induction false} LabelledAppend(batches: seq<seq<nat>>, decodes: seq<Json>, group: seq<seq<nat>>, more: seq<Json>,
                       texts: seq<string>, antiGovt: string -> bool, antiReactionary: string -> bool)
    requires Aligned(batches, |decodes|, group, |more|)
    requires Within(batches, |texts|) && Within(group, |texts|) && Objects(decodes) && Objects(more)
    ensures Objects(decodes + more)
    ensures Labelled(batches, decodes + more, texts, antiGovt, antiReactionary)
            == Labelled(batches, decodes, texts, antiGovt, antiReactionary)
               + Labelled(group, more, texts, antiGovt, antiReactionary)
  {
    ObjectsAppend(decodes, more);
    var labelled := Labelled(batches, decodes + more, texts, antiGovt, antiReactionary);
    var split := Labelled(batches, decodes, texts, antiGovt, antiReactionary)
                 + Labelled(group, more, texts, antiGovt, antiReactionary);
    forall b | 0 <= b < |labelled|
      ensures labelled[b] == split[b]
    {
      if b >= |decodes| {
        LabelledAppendLate(batches, decodes, group, more, texts, antiGovt, antiReactionary, b - |decodes|, b);
      } else {
        LabelledAppendEarly(batches, decodes, group, more, texts, antiGovt, antiReactionary, b);
      }
    }
  }

  /** Labelled batch `b` of a run of groups, for `b` among the first groups' batches. */
  lemma {:induction false} LabelledAppendEarly(batches: seq<seq<nat>>, decodes: seq<Json>, group: seq<seq<nat>>, more: seq<Json>,
                       texts: seq<string>, antiGovt: string -> bool, antiReactionary: string -> bool, b: nat)
    requires Aligned(batches, |decodes|, group, |more|)
    requires Within(batches, |texts|) && Within(group, |texts|) && Objects(decodes) && Objects(more)
    requires Objects(decodes + more) && b < |decodes|
    ensures Labelled(batches, decodes + more, texts, antiGovt, antiReactionary)[b]
            == (Labelled(batches, decodes, texts, antiGovt, antiReactionary)
                + Labelled(group, more, texts, antiGovt, antiReactionary))[b]
  {
    var first := Labelled(batches, decodes, texts, antiGovt, antiReactionary);
    LabelledAt(batches, decodes + more, texts, antiGovt, antiReactionary, b);
    Frames.AppendAtStart(decodes, more, b);
    LabelledAt(batches, decodes, texts, antiGovt, antiReactionary, b);
    Frames.AppendAtStart(first, Labelled(group, more, texts, antiGovt, antiReactionary), b);
  }

  /** Labelled batch `b` of a run of groups, for `b` the `k`-th batch of the next group. */
  lemma {:induction false} LabelledAppendLate(batches: seq<seq<nat>>, decodes: seq<Json>, group: seq<seq<nat>>, more: seq<Json>,
                       texts: seq<string>, antiGovt: string -> bool, antiReactionary: string -> bool, k: nat, b: nat)
    requires Aligned(batches, |decodes|, group, |more|)
    requires Within(batches, |texts|) && Within(group, |texts|) && Objects(decodes) && Objects(more)
    requires Objects(decodes + more) && k < |more| && b == |decodes| + k
    ensures b < |decodes + more|
    ensures Labelled(batches, decodes + more, texts, antiGovt, antiReactionary)[b]
            == (Labelled(batches, decodes, texts, antiGovt, antiReactionary)
                + Labelled(group, more, texts, antiGovt, antiReactionary))[b]
  {
    var first := Labelled(batches, decodes, texts, antiGovt, antiReactionary);
    var second := Labelled(group, more, texts, antiGovt, antiReactionary);
    AlignedAt(batches, |decodes|, group, |more|, k, b);
    Frames.AppendAt(decodes, more, k, b);
    LabelledAt(batches, decodes + more, texts, antiGovt, antiReactionary, b);
    LabelledAt(group, more, texts, antiGovt, antiReactionary, k);
    Frames.AppendAt(first, second, k, b);
  }

  lemma {:induction false} ObjectsAppend(decodes: seq<Json>, more: seq<Json>)
    requires Objects(decodes) && Objects(more)
    ensures Objects(decodes + more)
  {
    var all := decodes + more;
    forall b | 0 <= b < |all|
      ensures all[b].JObject?
    {
      if b >= |decodes| {
        assert all[b] == more[b - |decodes|];
      }
    }
  }

  /** What call `calls + b` decodes. */
  lemma {:induction false} OutcomeAt(batches: seq<seq<nat>>, comments: seq<string>, reply: nat -> nat -> Reply, calls: nat,
                  loads: string -> Option<Json>, cuts: seq<nat>, b: nat)
    requires |cuts| <= |batches| && Within(batches, |comments|) && b < |cuts|
    ensures Outcomes(batches, comments, reply, calls, loads, cuts)[b]
            == Outcome(batches[b], comments, reply(calls + b), loads, cuts[b])
  {
  }

  /** The labels of batch `b`. */
  lemma {:induction false} LabelledAt(batches: seq<seq<nat>>, decodes: seq<Json>, texts: seq<string>,
                   antiGovt: string -> bool, antiReactionary: string -> bool, b: nat)
    requires |decodes| <= |batches| && Within(batches, |texts|) && Objects(decodes) && b < |decodes|
    ensures Labelled(batches, decodes, texts, antiGovt, antiReactionary)[b]
            == BatchLabels(decodes[b], batches[b], texts, antiGovt, antiReactionary).value
  {
  }

  /** A row ends with the label of the last labelled batch that holds it:
      the label `BatchLabelsAt` describes. */
  lemma {:induction false} RowLabel(col: seq<string>, batches: seq<seq<nat>>, decodes: seq<Json>, texts: seq<string>,
                 antiGovt: string -> bool, antiReactionary: string -> bool, p: nat, b: nat)
    requires p < |col| && |decodes| <= |batches| && Within(batches, |texts|) && Objects(decodes)
    requires b < |decodes| && p in batches[b] && forall b' :: b < b' < |decodes| ==> p !in batches[b']
    ensures Overlay(col, Labelled(batches, decodes, texts, antiGovt, antiReactionary))[p]
            == BatchLabels(decodes[b], batches[b], texts, antiGovt, antiReactionary).value[p].Name()
  {
    var written := Labelled(batches, decodes, texts, antiGovt, antiReactionary);
    OverlayAt(col, written, p);
    LabelledKeys(batches, decodes, texts, antiGovt, antiReactionary, b, p);
    var last := LastWith(written, p);
    var c := last.value;
    if c > b {
      LabelledKeys(batches, decodes, texts, antiGovt, antiReactionary, c, p);
    }
    assert c == b;
    assert written[b] == BatchLabels(decodes[b], batches[b], texts, antiGovt, antiReactionary).value;
  }

  /** A row that no labelled batch holds keeps its old value. */
  lemma {:induction false} RowUnlabelled(col: seq<string>, batches: seq<seq<nat>>, decodes: seq<Json>, texts: seq<string>,
                      antiGovt: string -> bool, antiReactionary: string -> bool, p: nat)
    requires p < |col| && |decodes| <= |batches| && Within(batches, |texts|) && Objects(decodes)
    requires forall b :: 0 <= b < |decodes| ==> p !in batches[b]
    ensures Overlay(col, Labelled(batches, decodes, texts, antiGovt, antiReactionary))[p] == col[p]
  {
    var written := Labelled(batches, decodes, texts, antiGovt, antiReactionary);
    OverlayAt(col, written, p);
    forall b | 0 <= b < |written|
      ensures p !in written[b]
    {
      LabelledKeys(batches, decodes, texts, antiGovt, antiReactionary, b, p);
    }
  }

  /** A row that held a label name, or that a labelled batch holds, ends with a label name. */
  lemma {:induction false} RowNamed(col: seq<string>, batches: seq<seq<nat>>, decodes: seq<Json>, texts: seq<string>,
                 antiGovt: string -> bool, antiReactionary: string -> bool, p: nat)
    requires p < |col| && |decodes| <= |batches| && Within(batches, |texts|) && Objects(decodes)
    requires FromName(col[p]).Some? || exists b :: 0 <= b < |decodes| && p in batches[b]
    ensures FromName(Overlay(col, Labelled(batches, decodes, texts, antiGovt, antiReactionary))[p]).Some?
  {
    var written := Labelled(batches, decodes, texts, antiGovt, antiReactionary);
    OverlayAt(col, written, p);
    if !FromName(col[p]).Some? {
      var b :| 0 <= b < |decodes| && p in batches[b];
      LabelledKeys(batches, decodes, texts, antiGovt, antiReactionary, b, p);
    }
    match LastWith(written, p)
    case Some(b) => FromNameName(written[b][p]);
    case None =>
  }

  /** Where a run stands after `|cuts|` labelled batches: batch `b` was
      decoded from call `calls + b`, as a dictionary, and the column `r` is
      the overlay of the labelled batches on `col`. */
  ghost predicate Progress(batches: seq<seq<nat>>, comments: seq<string>, texts: seq<string>, col: seq<string>,
                           reply: nat -> nat -> Reply, calls: nat, loads: string -> Option<Json>,
                           antiGovt: string -> bool, antiReactionary: string -> bool,
                           decodes: seq<Json>, cuts: seq<nat>, r: seq<string>)
  {
    && Within(batches, |comments|) && |texts| == |comments| && |cuts| <= |batches|
    && decodes == Outcomes(batches, comments, reply, calls, loads, cuts) && Objects(decodes)
    && r == Overlay(col, Labelled(batches, decodes, texts, antiGovt, antiReactionary))
  }

  /** One more batch labelled. */
  lemma {:induction false} ProgressNext(batches: seq<seq<nat>>, comments: seq<string>, texts: seq<string>, col: seq<string>,
                     reply: nat -> nat -> Reply, calls: nat, loads: string -> Option<Json>,
                     antiGovt: string -> bool, antiReactionary: string -> bool,
                     decodes: seq<Json>, cuts: seq<nat>, r: seq<string>,
                     batch: seq<nat>, call: nat, decoded: Json, cut: nat, next: seq<string>)
    requires Progress(batches, comments, texts, col, reply, calls, loads, antiGovt, antiReactionary, decodes, cuts, r)
    requires |cuts| < |batches| && batches[|cuts|] == batch && call == calls + |cuts| && decoded.JObject?
    requires decoded == Outcome(batch, comments, reply(call), loads, cut)
    requires next == Written(r, BatchLabels(decoded, batch, texts, antiGovt, antiReactionary).value)
    ensures Progress(batches, comments, texts, col, reply, calls, loads, antiGovt, antiReactionary,
                     decodes + [decoded], cuts + [cut], next)
  {
    var labels := BatchLabels(decoded, batch, texts, antiGovt, antiReactionary).value;
    var all, allCuts := decodes + [decoded], cuts + [cut];
    OutcomesNext(batches, comments, reply, calls, loads, cuts, cut);
    assert reply(call) == reply(calls + |cuts|);
    assert decoded == Outcome(batches[|cuts|], comments, reply(calls + |cuts|), loads, cut);
    assert all == Outcomes(batches, comments, reply, calls, loads, allCuts);
    LabelledNext(batches, decodes, decoded, texts, antiGovt, antiReactionary);
    var before := Labelled(batches, decodes, texts, antiGovt, antiReactionary);
    assert Labelled(batches, all, texts, antiGovt, antiReactionary) == before + [labels];
    OverlayNext(col, before, labels);
    assert next == Overlay(col, Labelled(batches, all, texts, antiGovt, antiReactionary));
  }

  /** One more labelled batch. */
  lemma {:induction false} LabelledNext(batches: seq<seq<nat>>, decodes: seq<Json>, decoded: Json, texts: seq<string>,
                     antiGovt: string -> bool, antiReactionary: string -> bool)
    requires |decodes| < |batches| && Within(batches, |texts|) && Objects(decodes) && decoded.JObject?
    ensures Objects(decodes + [decoded])
    ensures Labelled(batches, decodes + [decoded], texts, antiGovt, antiReactionary)
            == Labelled(batches, decodes, texts, antiGovt, antiReactionary)
               + [BatchLabels(decoded, batches[|decodes|], texts, antiGovt, antiReactionary).value]
  {
    var all := decodes + [decoded];
    assert forall b :: 0 <= b < |decodes| ==> all[b] == decodes[b];
  }

  /** One more call. */
  lemma {:induction false} OutcomesNext(batches: seq<seq<nat>>, comments: seq<string>, reply: nat -> nat -> Reply, calls: nat,
                     loads: string -> Option<Json>, cuts: seq<nat>, cut: nat)
    requires Within(batches, |comments|) && |cuts| < |batches|
    ensures Outcomes(batches, comments, reply, calls, loads, cuts + [cut])
            == Outcomes(batches, comments, reply, calls, loads, cuts)
               + [Outcome(batches[|cuts|], comments, reply(calls + |cuts|), loads, cut)]
  {
    var all := cuts + [cut];
    var whole := Outcomes(batches, comments, reply, calls, loads, all);
    var split := Outcomes(batches, comments, reply, calls, loads, cuts)
                 + [Outcome(batches[|cuts|], comments, reply(calls + |cuts|), loads, cut)];
    forall b | 0 <= b < |whole|
      ensures whole[b] == split[b]
    {
      if b < |cuts| {
        assert all[b] == cuts[b];
      }
    }
  }

  /** The batches of one more group labelled, from call `calls + |cuts|` on. */
  lemma {:induction false} ProgressAppend(batches: seq<seq<nat>>, comments: seq<string>, texts: seq<string>, col: seq<string>,
                       reply: nat -> nat -> Reply, calls: nat, loads: string -> Option<Json>,
                       antiGovt: string -> bool, antiReactionary: string -> bool,
                       decodes: seq<Json>, cuts: seq<nat>, r: seq<string>,
                       group: seq<seq<nat>>, more: seq<Json>, moreCuts: seq<nat>, next: seq<string>)
    requires Progress(batches, comments, texts, col, reply, calls, loads, antiGovt, antiReactionary, decodes, cuts, r)
    requires Progress(group, comments, texts, r, reply, calls + |cuts|, loads, antiGovt, antiReactionary, more, moreCuts, next)
    requires Aligned(batches, |cuts|, group, |moreCuts|)
    ensures Progress(batches, comments, texts, col, reply, calls, loads, antiGovt, antiReactionary,
                     decodes + more, cuts + moreCuts, next)
  {
    assert |decodes| == |cuts| && |more| == |moreCuts|;
    LabelledAppend(batches, decodes, group, more, texts, antiGovt, antiReactionary);
    OverlayAppend(col, Labelled(batches, decodes, texts, antiGovt, antiReactionary), Labelled(group, more, texts, antiGovt, antiReactionary));
    OutcomesAppend(batches, comments, reply, calls, loads, cuts, group, moreCuts);
  }

  /** The outcomes of a run of groups: those of the first groups, then those of the next. */
  lemma {:induction false} OutcomesAppend(batches: seq<seq<nat>>, comments: seq<string>, reply: nat -> nat -> Reply, calls: nat,
                       loads: string -> Option<Json>, cuts: seq<nat>, group: seq<seq<nat>>, moreCuts: seq<nat>)
    requires Within(batches, |comments|) && Within(group, |comments|)
    requires Aligned(batches, |cuts|, group, |moreCuts|)
    ensures Outcomes(batches, comments, reply, calls, loads, cuts + moreCuts)
            == Outcomes(batches, comments, reply, calls, loads, cuts)
               + Outcomes(group, comments, reply, calls + |cuts|, loads, moreCuts)
  {
    var whole := Outcomes(batches, comments, reply, calls, loads, cuts + moreCuts);
    var split := Outcomes(batches, comments, reply, calls, loads, cuts)
                 + Outcomes(group, comments, reply, calls + |cuts|, loads, moreCuts);
    forall b | 0 <= b < |whole|
      ensures whole[b] == split[b]
    {
      if b >= |cuts| {
        OutcomesAppendLate(batches, comments, reply, calls, loads, cuts, group, moreCuts, b - |cuts|, b);
      } else {
        OutcomesAppendEarly(batches, comments, reply, calls, loads, cuts, group, moreCuts, b);
      }
    }
  }

  /** Outcome `b` of a run of groups, for `b` among the first groups' batches. */
  lemma {:induction false} OutcomesAppendEarly(batches: seq<seq<nat>>, comments: seq<string>, reply: nat -> nat -> Reply, calls: nat,
                       loads: string -> Option<Json>, cuts: seq<nat>, group: seq<seq<nat>>, moreCuts: seq<nat>, b: nat)
    requires Within(batches, |comments|) && Within(group, |comments|)
    requires Aligned(batches, |cuts|, group, |moreCuts|) && b < |cuts|
    ensures Outcomes(batches, comments, reply, calls, loads, cuts + moreCuts)[b]
            == (Outcomes(batches, comments, reply, calls, loads, cuts)
                + Outcomes(group, comments, reply, calls + |cuts|, loads, moreCuts))[b]
  {
    var first := Outcomes(batches, comments, reply, calls, loads, cuts);
    OutcomeAt(batches, comments, reply, calls, loads, cuts + moreCuts, b);
    Frames.AppendAtStart(cuts, moreCuts, b);
    OutcomeAt(batches, comments, reply, calls, loads, cuts, b);
    Frames.AppendAtStart(first, Outcomes(group, comments, reply, calls + |cuts|, loads, moreCuts), b);
  }

  /** Outcome `b` of a run of groups, for `b` the `k`-th batch of the next group. */
  lemma {:induction false} OutcomesAppendLate(batches: seq<seq<nat>>, comments: seq<string>, reply: nat -> nat -> Reply, calls: nat,
                       loads: string -> Option<Json>, cuts: seq<nat>, group: seq<seq<nat>>, moreCuts: seq<nat>, k: nat, b: nat)
    requires Within(batches, |comments|) && Within(group, |comments|)
    requires Aligned(batches, |cuts|, group, |moreCuts|) && k < |moreCuts| && b == |cuts| + k
    ensures b < |cuts + moreCuts|
    ensures Outcomes(batches, comments, reply, calls, loads, cuts + moreCuts)[b]
            == (Outcomes(batches, comments, reply, calls, loads, cuts)
                + Outcomes(group, comments, reply, calls + |cuts|, loads, moreCuts))[b]
  {
    var first := Outcomes(batches, comments, reply, calls, loads, cuts);
    var second := Outcomes(group, comments, reply, calls + |cuts|, loads, moreCuts);
    AlignedAt(batches, |cuts|, group, |moreCuts|, k, b);
    Frames.AppendAt(cuts, moreCuts, k, b);
    OutcomeAt(batches, comments, reply, calls, loads, cuts + moreCuts, b);
    OutcomeAt(group, comments, reply, calls + |cuts|, loads, moreCuts, k);
    assert reply(calls + b) == reply(calls + |cuts| + k);
    Frames.AppendAt(first, second, k, b);
  }

  /** The batches of a group are rows of the sheet. */
  lemma {:induction false} ChunksWithin(rows: seq<nat>, n: nat)
    requires forall i :: 0 <= i < |rows| ==> rows[i] < n
    ensures Within(Frames.Chunks(rows, 50), n)
  {
    var chunks := Frames.Chunks(rows, 50);
    forall b, i | 0 <= b < |chunks| && 0 <= i < |chunks[b]|
      ensures chunks[b][i] < n
    {
      Frames.ChunkElement(rows, 50, b, i);
      var j :| 0 <= j < |rows| && rows[j] == chunks[b][i];
    }
  }

  /** One batch of `run_optimized_labeling`: the call, the three stages and the
      write-back onto the label column. `crashed` is the AttributeError that
      `parse_json_labels` raises on a reply that is not a dictionary, which
      ends the run; `decoded` is the reply the call returned. */
  method LabelBatch(rm: RateLimit.RateLimitManager, col: seq<string>, batch: seq<nat>,
                    comments: seq<string>, texts: seq<string>, summary: string,
                    reply: nat -> Reply, clock: nat -> (RateLimit.Clock, RateLimit.Clock),
                    loads: string -> Option<Json>, antiGovt: string -> bool, antiReactionary: string -> bool)
    returns (r: seq<string>, crashed: bool, ghost decoded: Json, ghost cut: nat)
    requires rm.Valid()
    requires |comments| == |col| && |texts| == |col|
    requires forall i :: 0 <= i < |batch| ==> batch[i] < |col|
    modifies rm`usage, rm`keyIndex
    ensures rm.Valid() && |r| == |col|
    ensures decoded == Outcome(batch, comments, reply, loads, cut)
    ensures crashed <==> !decoded.JObject?
    ensures !crashed ==> r == Written(col, BatchLabels(decoded, batch, texts, antiGovt, antiReactionary).value)
    ensures crashed ==> r == col
  {
    var labelsDict;
    labelsDict, cut := LabelCommentsBatch(rm, batch, comments, summary, 3, reply, clock, loads);
    decoded := labelsDict;
    var parsed := ParseJsonLabels(labelsDict, batch);
    if parsed.None? {
      return col, true, decoded, cut;
    }
    var overridden, _ := ApplyRegexOverrides(parsed.value, batch, texts, antiGovt, antiReactionary);
    var corrected, _ := PostProcessDaiMentions(overridden, batch, texts);
    StagesLabels(decoded, batch, texts, antiGovt, antiReactionary, parsed.value, overridden, corrected);
    r := WriteLabels(col, corrected);
    crashed := false;
  }

  /** What one batch call means for the sheet: the decoded reply is `{}` or the
      decoded text of one of the three attempts' replies; a dictionary reply
      gives every row of the batch a label name and keeps every other row. */
  lemma {:induction false} BatchWritten(col: seq<string>, batch: seq<nat>, comments: seq<string>, texts: seq<string>,
                     reply: nat -> Reply, loads: string -> Option<Json>, cut: nat,
                     antiGovt: string -> bool, antiReactionary: string -> bool)
    requires |comments| == |col| && |texts| == |col| && forall i :: 0 <= i < |batch| ==> batch[i] < |col|
    ensures var decoded := Outcome(batch, comments, reply, loads, cut);
            decoded == EmptyObject || exists a :: 0 <= a < 3 && reply(a).Answered? && loads(reply(a).text) == Some(decoded)
    ensures var decoded := Outcome(batch, comments, reply, loads, cut);
            decoded.JObject? ==>
              var r := Written(col, BatchLabels(decoded, batch, texts, antiGovt, antiReactionary).value);
              && (forall p :: 0 <= p < |col| && p !in batch ==> r[p] == col[p])
              && (forall p :: 0 <= p < |col| && p in batch ==> FromName(r[p]).Some?)
  {
    var decoded := Outcome(batch, comments, reply, loads, cut);
    if decoded.JObject? {
      var labels := BatchLabels(decoded, batch, texts, antiGovt, antiReactionary).value;
      forall p | 0 <= p < |col| && p in batch
        ensures FromName(Written(col, labels)[p]).Some?
      {
        FromNameName(labels[p]);
      }
    }
  }

  /** The rows a run labels: those with a summary or, without a summary column, all of them. */
  predicate Selected(summaries: Option<seq<Option<string>>>, p: nat) {
    summaries.None? || (p < |summaries.value| && summaries.value[p].Some?)
  }

  /** The label column before the run: the existing one, or all empty. */
  function InitialLabels(labelCol: Option<seq<string>>, n: nat): (r: seq<string>)
    ensures labelCol.None? ==> |r| == n && forall p :: 0 <= p < n ==> r[p] == ""
  {
    match labelCol
    case Some(col) => col
    case None => seq(n, _ => "")
  }

  /** The batches of one summary group: its rows, 50 at a time in row order,
      with the summary as context; the `c`-th call of the run is call
      `calls + c` of the reply and clock sequences. Batch `b` is decoded from
      call `calls + b`; the column ends as the overlay of the batches labelled
      before a reply that is not a dictionary ends the run, if one does. */
  method LabelGroup(rm: RateLimit.RateLimitManager, col: seq<string>, rows: seq<nat>,
                    comments: seq<string>, texts: seq<string>, summary: string, calls: nat,
                    reply: nat -> nat -> Reply, clock: nat -> nat -> (RateLimit.Clock, RateLimit.Clock),
                    loads: string -> Option<Json>, antiGovt: string -> bool, antiReactionary: string -> bool)
    returns (r: seq<string>, callsAfter: nat, crashed: bool, ghost decodes: seq<Json>, ghost cuts: seq<nat>)
    requires rm.Valid()
    requires |comments| == |col| && |texts| == |col|
    requires forall i :: 0 <= i < |rows| ==> rows[i] < |col|
    modifies rm`usage, rm`keyIndex
    ensures rm.Valid() && |r| == |col| && Within(Frames.Chunks(rows, 50), |col|)
    ensures |cuts| == |decodes| + (if crashed then 1 else 0) <= |Frames.Chunks(rows, 50)|
    ensures callsAfter == calls + |decodes|
    ensures decodes == Outcomes(Frames.Chunks(rows, 50), comments, reply, calls, loads, cuts[..|decodes|]) && Objects(decodes)
    ensures crashed ==> !Outcome(Frames.Chunks(rows, 50)[|decodes|], comments, reply(callsAfter), loads, cuts[|decodes|]).JObject?
    ensures !crashed ==> |decodes| == |Frames.Chunks(rows, 50)|
    ensures r == Overlay(col, Labelled(Frames.Chunks(rows, 50), decodes, texts, antiGovt, antiReactionary))
    ensures forall p :: 0 <= p < |col| && p !in rows ==> r[p] == col[p]
    ensures forall p :: 0 <= p < |col| && FromName(col[p]).Some? ==> FromName(r[p]).Some?
    ensures !crashed ==> forall i :: 0 <= i < |rows| ==> FromName(r[rows[i]]).Some?
  {
    ChunksWithin(rows, |col|);
    ghost var chunks := Frames.Chunks(rows, 50);
    r, callsAfter, crashed, decodes, cuts := col, calls, false, [], [];
    var start := 0;
    while start < |rows|
      invariant start == |cuts| * 50 && |cuts| <= |chunks| && rm.Valid() && |r| == |col|
      invariant callsAfter == calls + |cuts| && |decodes| == |cuts| && !crashed
      invariant Progress(chunks, comments, texts, col, reply, calls, loads, antiGovt, antiReactionary, decodes, cuts, r)
      decreases |rows| - start
    {
      var end := if start + 50 <= |rows| then start + 50 else |rows|;
      var batch := rows[start..end];
      Frames.ChunkNext(rows, 50, |cuts|, start, end);
      var next, stop;
      ghost var decoded, cut;
      next, stop, decoded, cut := LabelBatch(rm, r, batch, comments, texts, summary, reply(callsAfter), clock(callsAfter),
                                             loads, antiGovt, antiReactionary);
      if stop {
        Frames.Snoc(cuts, cut);
        crashed, cuts := true, cuts + [cut];
        GroupExit(rows, comments, texts, col, reply, calls, loads, antiGovt, antiReactionary, decodes, cuts, r, crashed, batch, callsAfter);
        return;
      }
      ProgressNext(chunks, comments, texts, col, reply, calls, loads, antiGovt, antiReactionary,
                   decodes, cuts, r, batch, callsAfter, decoded, cut, next);
      r, callsAfter, start := next, callsAfter + 1, start + 50;
      decodes, cuts := decodes + [decoded], cuts + [cut];
    }
    Frames.ChunksDone(rows, 50, |cuts|);
    Frames.Snoc(cuts, 0);
    GroupExit(rows, comments, texts, col, reply, calls, loads, antiGovt, antiReactionary, decodes, cuts, r, crashed, [], callsAfter);
  }

  /** Where the loop over a group's batches stops, either after its last batch
      or at the batch whose reply does not decode to an object. */
  lemma {:induction false} GroupExit(rows: seq<nat>, comments: seq<string>, texts: seq<string>, col: seq<string>,
                  reply: nat -> nat -> Reply, calls: nat, loads: string -> Option<Json>,
                  antiGovt: string -> bool, antiReactionary: string -> bool,
                  decodes: seq<Json>, cuts: seq<nat>, r: seq<string>, crashed: bool, batch: seq<nat>, call: nat)
    requires |comments| == |col| && forall i :: 0 <= i < |rows| ==> rows[i] < |col|
    requires |cuts| == |decodes| + (if crashed then 1 else 0) <= |Frames.Chunks(rows, 50)|
    requires Progress(Frames.Chunks(rows, 50), comments, texts, col, reply, calls, loads, antiGovt, antiReactionary,
                      decodes, cuts[..|decodes|], r)
    requires call == calls + |decodes|
    requires crashed ==> Frames.Chunks(rows, 50)[|decodes|] == batch
    requires crashed ==> !Outcome(batch, comments, reply(call), loads, cuts[|decodes|]).JObject?
    requires !crashed ==> |decodes| == |Frames.Chunks(rows, 50)|
    ensures |r| == |col| && Within(Frames.Chunks(rows, 50), |col|)
    ensures crashed ==> !Outcome(Frames.Chunks(rows, 50)[|decodes|], comments, reply(call), loads, cuts[|decodes|]).JObject?
    ensures decodes == Outcomes(Frames.Chunks(rows, 50), comments, reply, calls, loads, cuts[..|decodes|]) && Objects(decodes)
    ensures r == Overlay(col, Labelled(Frames.Chunks(rows, 50), decodes, texts, antiGovt, antiReactionary))
    ensures forall p :: 0 <= p < |col| && p !in rows ==> r[p] == col[p]
    ensures forall p :: 0 <= p < |col| && FromName(col[p]).Some? ==> FromName(r[p]).Some?
    ensures !crashed ==> forall i :: 0 <= i < |rows| ==> FromName(r[rows[i]]).Some?
  {
    GroupRows(col, rows, decodes, texts, antiGovt, antiReactionary, crashed);
  }

  /** What the overlay of a group's labelled batches means for its rows: rows
      outside the group keep their value, a label name stays a label name and,
      once every batch is labelled, every row of the group holds a label name. */
  lemma {:induction false} GroupRows(col: seq<string>, rows: seq<nat>, decodes: seq<Json>, texts: seq<string>,
                  antiGovt: string -> bool, antiReactionary: string -> bool, crashed: bool)
    requires |texts| == |col| && Within(Frames.Chunks(rows, 50), |col|)
    requires |decodes| <= |Frames.Chunks(rows, 50)| && Objects(decodes)
    requires !crashed ==> |decodes| == |Frames.Chunks(rows, 50)|
    ensures var r := Overlay(col, Labelled(Frames.Chunks(rows, 50), decodes, texts, antiGovt, antiReactionary));
            && (forall p :: 0 <= p < |col| && p !in rows ==> r[p] == col[p])
            && (forall p :: 0 <= p < |col| && FromName(col[p]).Some? ==> FromName(r[p]).Some?)
            && (!crashed ==> forall i :: 0 <= i < |rows| ==> rows[i] < |col| && FromName(r[rows[i]]).Some?)
  {
    var chunks := Frames.Chunks(rows, 50);
    forall p | 0 <= p < |col| && p !in rows
      ensures Overlay(col, Labelled(chunks, decodes, texts, antiGovt, antiReactionary))[p] == col[p]
    {
      forall b | 0 <= b < |decodes|
        ensures p !in chunks[b]
      {
        if p in chunks[b] {
          var i :| 0 <= i < |chunks[b]| && chunks[b][i] == p;
          Frames.ChunkElement(rows, 50, b, i);
        }
      }
      RowUnlabelled(col, chunks, decodes, texts, antiGovt, antiReactionary, p);
    }
    forall p | 0 <= p < |col| && FromName(col[p]).Some?
      ensures FromName(Overlay(col, Labelled(chunks, decodes, texts, antiGovt, antiReactionary))[p]).Some?
    {
      RowNamed(col, chunks, decodes, texts, antiGovt, antiReactionary, p);
    }
    if !crashed {
      forall i | 0 <= i < |rows|
        ensures rows[i] < |col| && FromName(Overlay(col, Labelled(chunks, decodes, texts, antiGovt, antiReactionary))[rows[i]]).Some?
      {
        Frames.ChunkCovers(rows, 50, i);
        var b :| 0 <= b < |chunks| && rows[i] in chunks[b];
        var k :| 0 <= k < |chunks[b]| && chunks[b][k] == rows[i];
        RowNamed(col, chunks, decodes, texts, antiGovt, antiReactionary, rows[i]);
      }
    }
  }

  /** The batches of the first `g` summary groups in order, each group's rows 50 at a time. */
  function GroupBatches(column: seq<Option<string>>, groups: seq<string>, g: nat): (r: seq<seq<nat>>)
    requires g <= |groups|
    ensures Within(r, |column|)
  {
    if g == 0 then []
    else
      var rows := Frames.PositionsOf(column, Some(groups[g - 1]), |column|);
      var before := GroupBatches(column, groups, g - 1);
      ChunksWithin(rows, |column|);
      var r := before + Frames.Chunks(rows, 50);
      assert forall b :: |before| <= b < |r| ==> r[b] == Frames.Chunks(rows, 50)[b - |before|];
      r
  }

  /** The batches of the first groups are the first batches of the run. */
  lemma {:induction false} GroupBatchesPrefix(column: seq<Option<string>>, groups: seq<string>, g: nat, h: nat)
    requires g <= h <= |groups|
    ensures var first := GroupBatches(column, groups, g);
            |first| <= |GroupBatches(column, groups, h)| && first == GroupBatches(column, groups, h)[..|first|]
    decreases h
  {
    if g < h {
      GroupBatchesPrefix(column, groups, g, h - 1);
    }
  }

  /** The batches of the summary branch: the groups are the distinct non-null
      summaries in order of first appearance. */
  function SummaryBatches(column: seq<Option<string>>): (r: seq<seq<nat>>)
    ensures Within(r, |column|)
  {
    var groups := Frames.Unique(NonNull(column));
    GroupBatches(column, groups, |groups|)
  }

  /** One more group: its batches follow those of the groups before it. */
  lemma {:induction false} GroupBatchesNext(column: seq<Option<string>>, groups: seq<string>, g: nat)
    requires g < |groups|
    ensures GroupBatches(column, groups, g + 1)
            == GroupBatches(column, groups, g) + Frames.Chunks(Frames.PositionsOf(column, Some(groups[g]), |column|), 50)
  {
  }

  /** Row `p` with a summary lies in a batch of the first `g` groups when its
      summary is group `j` of them. */
  lemma {:induction false} GroupBatchesCover(column: seq<Option<string>>, groups: seq<string>, g: nat, p: nat, j: nat)
    requires j < g <= |groups| && p < |column| && column[p] == Some(groups[j])
    ensures exists k :: 0 <= k < |GroupBatches(column, groups, g)| && p in GroupBatches(column, groups, g)[k]
    decreases g
  {
    var rows := Frames.PositionsOf(column, Some(groups[g - 1]), |column|);
    var before := GroupBatches(column, groups, g - 1);
    GroupBatchesNext(column, groups, g - 1);
    if j == g - 1 {
      var b := RowsCover(column, Some(groups[g - 1]), rows, p);
      InLater(before, Frames.Chunks(rows, 50), p, b);
    } else {
      GroupBatchesCover(column, groups, g - 1, p, j);
      var k :| 0 <= k < |before| && p in before[k];
      InEarlier(before, Frames.Chunks(rows, 50), p, k);
    }
  }

  /** A row in batch `b` of the later batches lies in a batch of all of them. */
  lemma InLater(before: seq<seq<nat>>, later: seq<seq<nat>>, p: nat, b: nat)
    requires b < |later| && p in later[b]
    ensures exists k :: 0 <= k < |before + later| && p in (before + later)[k]
  {
    Frames.AppendAt(before, later, b, |before| + b);
  }

  /** A row in batch `k` of the earlier batches lies in a batch of all of them. */
  lemma InEarlier(before: seq<seq<nat>>, later: seq<seq<nat>>, p: nat, k: nat)
    requires k < |before| && p in before[k]
    ensures exists k' :: 0 <= k' < |before + later| && p in (before + later)[k']
  {
    Frames.AppendAtStart(before, later, k);
  }

  /** The batch of a group that holds row `p` of that group. */
  lemma {:induction false} RowsCover(column: seq<Option<string>>, v: Option<string>, rows: seq<nat>, p: nat) returns (b: nat)
    requires rows == Frames.PositionsOf(column, v, |column|) && p < |column| && column[p] == v
    ensures b < |Frames.Chunks(rows, 50)| && p in Frames.Chunks(rows, 50)[b]
  {
    Frames.PositionsOfExact(column, v, |column|);
    var i :| 0 <= i < |rows| && rows[i] == p;
    Frames.ChunkCovers(rows, 50, i);
    b :| 0 <= b < |Frames.Chunks(rows, 50)| && p in Frames.Chunks(rows, 50)[b];
  }

  /** A row without a summary lies in no batch of the summary groups. */
  lemma {:induction false} GroupBatchesAvoid(column: seq<Option<string>>, groups: seq<string>, g: nat, p: nat)
    requires g <= |groups| && p < |column| && column[p].None?
    ensures forall k :: 0 <= k < |GroupBatches(column, groups, g)| ==> p !in GroupBatches(column, groups, g)[k]
    decreases g
  {
    if g > 0 {
      var rows := Frames.PositionsOf(column, Some(groups[g - 1]), |column|);
      var before := GroupBatches(column, groups, g - 1);
      var all := GroupBatches(column, groups, g);
      GroupBatchesNext(column, groups, g - 1);
      GroupBatchesAvoid(column, groups, g - 1, p);
      forall k | 0 <= k < |all|
        ensures p !in all[k]
      {
        if k < |before| {
          assert all[k] == before[k];
        } else if p in all[k] {
          var b := k - |before|;
          assert all[k] == Frames.Chunks(rows, 50)[b];
          var i :| 0 <= i < |all[k]| && all[k][i] == p;
          Frames.ChunkElement(rows, 50, b, i);
          Frames.PositionsOfExact(column, Some(groups[g - 1]), |column|);
        }
      }
    }
  }

  /** A row has a summary exactly when some batch of the summary branch holds it. */
  lemma {:induction false} SummaryCover(column: seq<Option<string>>, p: nat)
    requires p < |column|
    ensures column[p].Some? ==> exists k :: 0 <= k < |SummaryBatches(column)| && p in SummaryBatches(column)[k]
    ensures column[p].None? ==> forall k :: 0 <= k < |SummaryBatches(column)| ==> p !in SummaryBatches(column)[k]
  {
    var groups := Frames.Unique(NonNull(column));
    if column[p].Some? {
      var values := NonNull(column);
      var i :| 0 <= i < |values| && values[i] == column[p].value;
      var j :| 0 <= j < |groups| && groups[j] == column[p].value;
      GroupBatchesCover(column, groups, |groups|, p, j);
      assert SummaryBatches(column) == GroupBatches(column, groups, |groups|);
    } else {
      GroupBatchesAvoid(column, groups, |groups|, p);
    }
  }

  /** Group `g`'s batches follow those of the groups before it in `all`, the batches of every group. */
  lemma {:induction false} SummaryGroup(column: seq<Option<string>>, groups: seq<string>, g: nat, rows: seq<nat>, k: nat, all: seq<seq<nat>>)
    requires g < |groups| && rows == Frames.PositionsOf(column, Some(groups[g]), |column|)
    requires all == GroupBatches(column, groups, |groups|) && k <= |all| && GroupBatches(column, groups, g) == all[..k]
    ensures Aligned(all, k, Frames.Chunks(rows, 50), |Frames.Chunks(rows, 50)|)
    ensures k + |Frames.Chunks(rows, 50)| <= |all| && GroupBatches(column, groups, g + 1) == all[..k + |Frames.Chunks(rows, 50)|]
  {
    var before, after, group := GroupBatches(column, groups, g), GroupBatches(column, groups, g + 1), Frames.Chunks(rows, 50);
    assert after == before + group by { GroupBatchesNext(column, groups, g); }
    assert |after| <= |all| && after == all[..|after|] by { GroupBatchesPrefix(column, groups, g + 1, |groups|); }
    PrefixStep(all, before, after, group, k);
  }

  /** A prefix of `batches` extended by `group` to a longer prefix: `group` sits at `k`. */
  lemma {:induction false} PrefixStep(batches: seq<seq<nat>>, before: seq<seq<nat>>, after: seq<seq<nat>>, group: seq<seq<nat>>, k: nat)
    requires k <= |batches| && before == batches[..k] && after == before + group
    requires |after| <= |batches| && after == batches[..|after|]
    ensures k + |group| <= |batches| && after == batches[..k + |group|]
    ensures Aligned(batches, k, group, |group|)
  {
    assert |after| == k + |group|;
    AlignedPrefix(batches, k, group);
  }

  /** A prefix of `batches` that extends the first `k` by `group` aligns `group` at `k`. */
  lemma {:induction false} AlignedPrefix(batches: seq<seq<nat>>, k: nat, group: seq<seq<nat>>)
    requires k + |group| <= |batches| && batches[..k + |group|] == batches[..k] + group
    ensures Aligned(batches, k, group, |group|)
  {
    forall b | 0 <= b < |group|
      ensures batches[k + b] == group[b]
    {
      assert batches[..k + |group|][k + b] == batches[k + b];
    }
  }

  /** Batch `j` of an aligned group is batch `k` of the run. */
  lemma {:induction false} AlignedAt(batches: seq<seq<nat>>, at: nat, group: seq<seq<nat>>, n: nat, j: nat, k: nat)
    requires Aligned(batches, at, group, n) && j < n && k == at + j
    ensures k < |batches| && batches[k] == group[j]
  {
  }

  /** The count after group `g` is labelled in full: its batches sit at `calls`. */
  lemma {:induction false} SummaryAdvance(column: seq<Option<string>>, groups: seq<string>, g: nat, rows: seq<nat>,
                       calls: nat, n: nat, callsAfter: nat, all: seq<seq<nat>>)
    requires g < |groups| && rows == Frames.PositionsOf(column, Some(groups[g]), |column|)
    requires all == GroupBatches(column, groups, |groups|) && calls <= |all| && GroupBatches(column, groups, g) == all[..calls]
    requires n == |Frames.Chunks(rows, 50)| && callsAfter == calls + n
    ensures Aligned(all, calls, Frames.Chunks(rows, 50), |Frames.Chunks(rows, 50)|)
    ensures callsAfter <= |all| && GroupBatches(column, groups, g + 1) == all[..callsAfter]
  {
    SummaryGroup(column, groups, g, rows, calls, all);
  }

  /** Group `g` stopped at a reply that is not a dictionary: the run ends there. */
  lemma {:induction false} SummaryStop(column: seq<Option<string>>, groups: seq<string>, g: nat, rows: seq<nat>,
                    comments: seq<string>, texts: seq<string>, col: seq<string>,
                    reply: nat -> nat -> Reply, loads: string -> Option<Json>,
                    antiGovt: string -> bool, antiReactionary: string -> bool,
                    done: seq<Json>, doneCuts: seq<nat>, prior: seq<string>, calls: nat,
                    more: seq<Json>, moreCuts: seq<nat>, callsAfter: nat,
                    decodes: seq<Json>, cuts: seq<nat>, r: seq<string>, all: seq<seq<nat>>)
    requires g < |groups| && rows == Frames.PositionsOf(column, Some(groups[g]), |column|)
    requires Within(Frames.Chunks(rows, 50), |col|) && |comments| == |col| && |texts| == |col|
    requires all == GroupBatches(column, groups, |groups|) && calls <= |all| && GroupBatches(column, groups, g) == all[..calls]
    requires calls == |doneCuts| == |done|
    requires Progress(all, comments, texts, col, reply, 0, loads, antiGovt, antiReactionary, done, doneCuts, prior)
    requires |moreCuts| == |more| + 1 <= |Frames.Chunks(rows, 50)| && callsAfter == calls + |more|
    requires more == Outcomes(Frames.Chunks(rows, 50), comments, reply, calls, loads, moreCuts[..|more|]) && Objects(more)
    requires !Outcome(Frames.Chunks(rows, 50)[|more|], comments, reply(callsAfter), loads, moreCuts[|more|]).JObject?
    requires r == Overlay(prior, Labelled(Frames.Chunks(rows, 50), more, texts, antiGovt, antiReactionary))
    requires decodes == done + more && cuts == doneCuts + moreCuts
    ensures callsAfter == |decodes| && |cuts| == |decodes| + 1 <= |all|
    ensures Progress(all, comments, texts, col, reply, 0, loads, antiGovt, antiReactionary, decodes, cuts[..|decodes|], r)
    ensures !Outcome(all[|decodes|], comments, reply(callsAfter), loads, cuts[|decodes|]).JObject?
  {
    SummaryGroup(column, groups, g, rows, calls, all);
    GroupCut(all, comments, texts, col, reply, loads, antiGovt, antiReactionary,
             done, doneCuts, prior, calls, Frames.Chunks(rows, 50), more, moreCuts, callsAfter, decodes, cuts, r);
  }

  /** The batches of a group, labelled in full from call `calls` on, join those before them. */
  lemma {:induction false} GroupAppend(batches: seq<seq<nat>>, comments: seq<string>, texts: seq<string>, col: seq<string>,
                    reply: nat -> nat -> Reply, loads: string -> Option<Json>,
                    antiGovt: string -> bool, antiReactionary: string -> bool,
                    done: seq<Json>, doneCuts: seq<nat>, prior: seq<string>, calls: nat,
                    group: seq<seq<nat>>, more: seq<Json>, moreCuts: seq<nat>,
                    decodes: seq<Json>, cuts: seq<nat>, r: seq<string>)
    requires Within(group, |col|) && |comments| == |col| && |texts| == |col|
    requires calls == |doneCuts| == |done| && Aligned(batches, calls, group, |group|)
    requires Progress(batches, comments, texts, col, reply, 0, loads, antiGovt, antiReactionary, done, doneCuts, prior)
    requires |moreCuts| == |more| == |group| && moreCuts[..|more|] == moreCuts
    requires more == Outcomes(group, comments, reply, calls, loads, moreCuts[..|more|]) && Objects(more)
    requires r == Overlay(prior, Labelled(group, more, texts, antiGovt, antiReactionary))
    requires decodes == done + more && cuts == doneCuts + moreCuts
    ensures calls + |more| == |cuts| == |decodes|
    ensures Progress(batches, comments, texts, col, reply, 0, loads, antiGovt, antiReactionary, decodes, cuts, r)
  {
    GroupSoFar(group, comments, texts, col, prior, reply, calls, loads, antiGovt, antiReactionary, more, moreCuts, r);
    ProgressAppend(batches, comments, texts, col, reply, 0, loads, antiGovt, antiReactionary,
                   done, doneCuts, prior, group, more, moreCuts, r);
    ProgressSame(batches, comments, texts, col, reply, loads, antiGovt, antiReactionary,
                 done + more, doneCuts + moreCuts, decodes, cuts, r);
  }

  /** Progress is about the decodes and cuts, not how they are written. */
  lemma ProgressSame(batches: seq<seq<nat>>, comments: seq<string>, texts: seq<string>, col: seq<string>,
                     reply: nat -> nat -> Reply, loads: string -> Option<Json>,
                     antiGovt: string -> bool, antiReactionary: string -> bool,
                     d: seq<Json>, c: seq<nat>, decodes: seq<Json>, cuts: seq<nat>, r: seq<string>)
    requires d == decodes && c == cuts
    requires Progress(batches, comments, texts, col, reply, 0, loads, antiGovt, antiReactionary, d, c, r)
    ensures Progress(batches, comments, texts, col, reply, 0, loads, antiGovt, antiReactionary, decodes, cuts, r)
  {
  }

  /** The batches of a group up to the one whose reply is not a dictionary join
      those before them, and that batch is the next one of the run. */
  lemma GroupCut(batches: seq<seq<nat>>, comments: seq<string>, texts: seq<string>, col: seq<string>,
                 reply: nat -> nat -> Reply, loads: string -> Option<Json>,
                 antiGovt: string -> bool, antiReactionary: string -> bool,
                 done: seq<Json>, doneCuts: seq<nat>, prior: seq<string>, calls: nat,
                 group: seq<seq<nat>>, more: seq<Json>, moreCuts: seq<nat>, callsAfter: nat,
                 decodes: seq<Json>, cuts: seq<nat>, r: seq<string>)
    requires Within(group, |col|) && |comments| == |col| && |texts| == |col|
    requires calls == |doneCuts| == |done| && Aligned(batches, calls, group, |group|)
    requires Progress(batches, comments, texts, col, reply, 0, loads, antiGovt, antiReactionary, done, doneCuts, prior)
    requires |moreCuts| == |more| + 1 <= |group| && callsAfter == calls + |more|
    requires more == Outcomes(group, comments, reply, calls, loads, moreCuts[..|more|]) && Objects(more)
    requires !Outcome(group[|more|], comments, reply(callsAfter), loads, moreCuts[|more|]).JObject?
    requires r == Overlay(prior, Labelled(group, more, texts, antiGovt, antiReactionary))
    requires decodes == done + more && cuts == doneCuts + moreCuts
    ensures callsAfter == |decodes| && |cuts| == |decodes| + 1 <= |batches|
    ensures Progress(batches, comments, texts, col, reply, 0, loads, antiGovt, antiReactionary, decodes, cuts[..|decodes|], r)
    ensures !Outcome(batches[|decodes|], comments, reply(callsAfter), loads, cuts[|decodes|]).JObject?
  {
    GroupCutJoins(batches, comments, texts, col, reply, loads, antiGovt, antiReactionary,
               done, doneCuts, prior, calls, group, more, moreCuts, callsAfter, decodes, cuts, r);
    GroupCutStops(batches, comments, texts, col, reply, loads, antiGovt, antiReactionary,
               done, doneCuts, prior, calls, group, more, moreCuts, callsAfter, decodes, cuts, r);
  }

  /** The batches of a group before the one that stops it join those before them. */
  lemma {:induction false} GroupCutJoins(batches: seq<seq<nat>>, comments: seq<string>, texts: seq<string>, col: seq<string>,
                 reply: nat -> nat -> Reply, loads: string -> Option<Json>,
                 antiGovt: string -> bool, antiReactionary: string -> bool,
                 done: seq<Json>, doneCuts: seq<nat>, prior: seq<string>, calls: nat,
                 group: seq<seq<nat>>, more: seq<Json>, moreCuts: seq<nat>, callsAfter: nat,
                 decodes: seq<Json>, cuts: seq<nat>, r: seq<string>)
    requires Within(group, |col|) && |comments| == |col| && |texts| == |col|
    requires calls == |doneCuts| == |done| && Aligned(batches, calls, group, |group|)
    requires Progress(batches, comments, texts, col, reply, 0, loads, antiGovt, antiReactionary, done, doneCuts, prior)
    requires |moreCuts| == |more| + 1 <= |group| && callsAfter == calls + |more|
    requires more == Outcomes(group, comments, reply, calls, loads, moreCuts[..|more|]) && Objects(more)
    requires !Outcome(group[|more|], comments, reply(callsAfter), loads, moreCuts[|more|]).JObject?
    requires r == Overlay(prior, Labelled(group, more, texts, antiGovt, antiReactionary))
    requires decodes == done + more && cuts == doneCuts + moreCuts
    ensures callsAfter == |decodes| && |cuts| == |decodes| + 1 <= |batches|
    ensures Progress(batches, comments, texts, col, reply, 0, loads, antiGovt, antiReactionary, decodes, cuts[..|decodes|], r)
  {
    CutAt(batches, calls, group, doneCuts, moreCuts, |more|, cuts, |decodes|);
    var head := moreCuts[..|more|];
    AlignedFewer(batches, calls, group, |group|, |head|);
    GroupJoins(batches, comments, texts, col, reply, loads, antiGovt, antiReactionary,
               done, doneCuts, prior, calls, group, more, head, r);
    ProgressSame(batches, comments, texts, col, reply, loads, antiGovt, antiReactionary,
                 done + more, doneCuts + head, decodes, cuts[..|decodes|], r);
  }

  /** The first batches of a group, decoded from call `calls` on, join the
      batches before them. */
  lemma GroupJoins(batches: seq<seq<nat>>, comments: seq<string>, texts: seq<string>, col: seq<string>,
                   reply: nat -> nat -> Reply, loads: string -> Option<Json>,
                   antiGovt: string -> bool, antiReactionary: string -> bool,
                   done: seq<Json>, doneCuts: seq<nat>, prior: seq<string>, calls: nat,
                   group: seq<seq<nat>>, more: seq<Json>, head: seq<nat>, r: seq<string>)
    requires Within(group, |col|) && |comments| == |col| && |texts| == |col|
    requires calls == |doneCuts| == |done| && |head| == |more| <= |group| && Aligned(batches, calls, group, |head|)
    requires Progress(batches, comments, texts, col, reply, 0, loads, antiGovt, antiReactionary, done, doneCuts, prior)
    requires more == Outcomes(group, comments, reply, calls, loads, head) && Objects(more)
    requires r == Overlay(prior, Labelled(group, more, texts, antiGovt, antiReactionary))
    ensures Progress(batches, comments, texts, col, reply, 0, loads, antiGovt, antiReactionary,
                     done + more, doneCuts + head, r)
  {
    LabelledAppend(batches, done, group, more, texts, antiGovt, antiReactionary);
    OverlayAppend(col, Labelled(batches, done, texts, antiGovt, antiReactionary), Labelled(group, more, texts, antiGovt, antiReactionary));
    OutcomesAppendFrom(batches, comments, reply, 0, loads, doneCuts, group, head, calls);
  }

  /** `OutcomesAppend`, with the first call of the group named. */
  lemma OutcomesAppendFrom(batches: seq<seq<nat>>, comments: seq<string>, reply: nat -> nat -> Reply, calls: nat,
                           loads: string -> Option<Json>, cuts: seq<nat>, group: seq<seq<nat>>, moreCuts: seq<nat>, next: nat)
    requires Within(batches, |comments|) && Within(group, |comments|)
    requires Aligned(batches, |cuts|, group, |moreCuts|) && next == calls + |cuts|
    ensures Outcomes(batches, comments, reply, calls, loads, cuts + moreCuts)
            == Outcomes(batches, comments, reply, calls, loads, cuts)
               + Outcomes(group, comments, reply, next, loads, moreCuts)
  {
    OutcomesAppend(batches, comments, reply, calls, loads, cuts, group, moreCuts);
  }

  /** The batch that stops a group is the next batch of the run. */
  lemma GroupCutStops(batches: seq<seq<nat>>, comments: seq<string>, texts: seq<string>, col: seq<string>,
                 reply: nat -> nat -> Reply, loads: string -> Option<Json>,
                 antiGovt: string -> bool, antiReactionary: string -> bool,
                 done: seq<Json>, doneCuts: seq<nat>, prior: seq<string>, calls: nat,
                 group: seq<seq<nat>>, more: seq<Json>, moreCuts: seq<nat>, callsAfter: nat,
                 decodes: seq<Json>, cuts: seq<nat>, r: seq<string>)
    requires Within(group, |col|) && |comments| == |col| && |texts| == |col|
    requires calls == |doneCuts| == |done| && Aligned(batches, calls, group, |group|)
    requires Progress(batches, comments, texts, col, reply, 0, loads, antiGovt, antiReactionary, done, doneCuts, prior)
    requires |moreCuts| == |more| + 1 <= |group| && callsAfter == calls + |more|
    requires more == Outcomes(group, comments, reply, calls, loads, moreCuts[..|more|]) && Objects(more)
    requires !Outcome(group[|more|], comments, reply(callsAfter), loads, moreCuts[|more|]).JObject?
    requires r == Overlay(prior, Labelled(group, more, texts, antiGovt, antiReactionary))
    requires decodes == done + more && cuts == doneCuts + moreCuts
    ensures callsAfter == |decodes| && |cuts| == |decodes| + 1 <= |batches|
    ensures !Outcome(batches[|decodes|], comments, reply(callsAfter), loads, cuts[|decodes|]).JObject?
  {
    CutAt(batches, calls, group, doneCuts, moreCuts, |more|, cuts, |decodes|);
  }

  /** The batches of a group decoded so far, from call `calls` on, are its progress over `prior`. */
  lemma GroupSoFar(group: seq<seq<nat>>, comments: seq<string>, texts: seq<string>, col: seq<string>,
                   prior: seq<string>, reply: nat -> nat -> Reply, calls: nat, loads: string -> Option<Json>,
                   antiGovt: string -> bool, antiReactionary: string -> bool,
                   more: seq<Json>, head: seq<nat>, r: seq<string>)
    requires Within(group, |col|) && |comments| == |col| && |texts| == |col| && |head| <= |group|
    requires more == Outcomes(group, comments, reply, calls, loads, head) && Objects(more)
    requires r == Overlay(prior, Labelled(group, more, texts, antiGovt, antiReactionary))
    ensures Progress(group, comments, texts, prior, reply, calls, loads, antiGovt, antiReactionary, more, head, r)
  {
  }

  /** Fewer batches of a group are aligned where more are. */
  lemma AlignedFewer(batches: seq<seq<nat>>, at: nat, group: seq<seq<nat>>, n: nat, m: nat)
    requires Aligned(batches, at, group, n) && m <= n
    ensures Aligned(batches, at, group, m)
  {
  }

  /** The batch at which a group stops is the next batch of the run, and its
      cut follows the cuts of the batches labelled before it. */
  lemma {:induction false} CutAt(batches: seq<seq<nat>>, calls: nat, group: seq<seq<nat>>,
              doneCuts: seq<nat>, moreCuts: seq<nat>, n: nat, cuts: seq<nat>, d: nat)
    requires calls == |doneCuts| && Aligned(batches, calls, group, |group|)
    requires |moreCuts| == n + 1 <= |group| && cuts == doneCuts + moreCuts && d == calls + n
    ensures d < |batches| && batches[d] == group[n] && |cuts| == d + 1
    ensures cuts[..d] == doneCuts + moreCuts[..n] && cuts[d] == moreCuts[n]
  {
    AlignedAt(batches, calls, group, |group|, n, d);
    Frames.PrefixAppend(doneCuts, moreCuts, n, d);
  }

  /** Where the loop over the summary groups stops, either after the last
      group or at the batch whose reply does not decode to an object. */
  lemma {:induction false} SummaryExit(column: seq<Option<string>>, groups: seq<string>, comments: seq<string>, texts: seq<string>, col: seq<string>,
                    reply: nat -> nat -> Reply, loads: string -> Option<Json>,
                    antiGovt: string -> bool, antiReactionary: string -> bool,
                    decodes: seq<Json>, cuts: seq<nat>, r: seq<string>, crashed: bool, call: nat)
    requires groups == Frames.Unique(NonNull(column))
    requires |comments| == |col| && |texts| == |col| && |column| == |col| && call == |decodes|
    requires |cuts| == |decodes| + (if crashed then 1 else 0) <= |GroupBatches(column, groups, |groups|)|
    requires Progress(GroupBatches(column, groups, |groups|), comments, texts, col, reply, 0, loads, antiGovt, antiReactionary,
                      decodes, cuts[..|decodes|], r)
    requires crashed ==> !Outcome(GroupBatches(column, groups, |groups|)[|decodes|], comments, reply(call), loads, cuts[|decodes|]).JObject?
    requires !crashed ==> |decodes| == |GroupBatches(column, groups, |groups|)|
    ensures |cuts| == |decodes| + (if crashed then 1 else 0) <= |SummaryBatches(column)|
    ensures !crashed ==> |decodes| == |SummaryBatches(column)|
    ensures |r| == |col|
    ensures decodes == Outcomes(SummaryBatches(column), comments, reply, 0, loads, cuts[..|decodes|]) && Objects(decodes)
    ensures crashed ==> !Outcome(SummaryBatches(column)[|decodes|], comments, reply(|decodes|), loads, cuts[|decodes|]).JObject?
    ensures r == Overlay(col, Labelled(SummaryBatches(column), decodes, texts, antiGovt, antiReactionary))
    ensures !crashed ==> forall p :: 0 <= p < |col| && column[p].Some? ==> FromName(r[p]).Some?
    ensures forall p :: 0 <= p < |col| && column[p].None? ==> r[p] == col[p]
  {
    var all := SummaryBatches(column);
    assert all == GroupBatches(column, groups, |groups|);
    forall p | 0 <= p < |col| && column[p].None?
      ensures r[p] == col[p]
    {
      SummaryCover(column, p);
      RowUnlabelled(col, all, decodes, texts, antiGovt, antiReactionary, p);
    }
    if !crashed {
      forall p | 0 <= p < |col| && column[p].Some?
        ensures FromName(r[p]).Some?
      {
        SummaryCover(column, p);
        RowNamed(col, all, decodes, texts, antiGovt, antiReactionary, p);
      }
    }
  }

  /** The summary-column branch: each distinct non-null summary in order of
      first appearance, with the rows holding it. Call `b` of the run decodes
      batch `b` of `SummaryBatches`; the column ends as the overlay of the
      batches labelled before a reply that is not a dictionary ends the run,
      if one does. */
  method LabelBySummary(rm: RateLimit.RateLimitManager, col: seq<string>, column: seq<Option<string>>,
                        comments: seq<string>, texts: seq<string>,
                        reply: nat -> nat -> Reply, clock: nat -> nat -> (RateLimit.Clock, RateLimit.Clock),
                        loads: string -> Option<Json>, antiGovt: string -> bool, antiReactionary: string -> bool)
    returns (r: seq<string>, crashed: bool, ghost decodes: seq<Json>, ghost cuts: seq<nat>)
    requires rm.Valid()
    requires |comments| == |col| && |texts| == |col| && |column| == |col|
    modifies rm`usage, rm`keyIndex
    ensures rm.Valid() && |r| == |col|
    ensures |cuts| == |decodes| + (if crashed then 1 else 0) <= |SummaryBatches(column)|
    ensures decodes == Outcomes(SummaryBatches(column), comments, reply, 0, loads, cuts[..|decodes|]) && Objects(decodes)
    ensures crashed ==> !Outcome(SummaryBatches(column)[|decodes|], comments, reply(|decodes|), loads, cuts[|decodes|]).JObject?
    ensures !crashed ==> |decodes| == |SummaryBatches(column)|
    ensures r == Overlay(col, Labelled(SummaryBatches(column), decodes, texts, antiGovt, antiReactionary))
    ensures !crashed ==> forall p :: 0 <= p < |col| && column[p].Some? ==> FromName(r[p]).Some?
    ensures forall p :: 0 <= p < |col| && column[p].None? ==> r[p] == col[p]
  {
    var groups := Frames.Unique(NonNull(column));
    ghost var all := GroupBatches(column, groups, |groups|);
    r, crashed, decodes, cuts := col, false, [], [];
    var calls := 0;
    var g := 0;
    while g < |groups|
      invariant g <= |groups| && rm.Valid() && |r| == |col| && !crashed
      invariant calls == |cuts| == |decodes| <= |all| && GroupBatches(column, groups, g) == all[..calls]
      invariant Progress(all, comments, texts, col, reply, 0, loads, antiGovt, antiReactionary, decodes, cuts, r)
    {
      var rows := Frames.PositionsOf(column, Some(groups[g]), |column|);
      var next, stop, callsAfter;
      ghost var more, moreCuts;
      next, callsAfter, stop, more, moreCuts := LabelGroup(rm, r, rows, comments, texts, groups[g], calls, reply, clock,
                                                          loads, antiGovt, antiReactionary);
      ghost var done, doneCuts, prior := decodes, cuts, r;
      r, decodes, cuts := next, decodes + more, cuts + moreCuts;
      if stop {
        crashed := true;
        SummaryStop(column, groups, g, rows, comments, texts, col, reply, loads, antiGovt, antiReactionary,
                    done, doneCuts, prior, calls, more, moreCuts, callsAfter, decodes, cuts, r, all);
        SummaryExit(column, groups, comments, texts, col, reply, loads, antiGovt, antiReactionary, decodes, cuts, r, crashed, callsAfter);
        return;
      }
      SummaryAdvance(column, groups, g, rows, calls, |more|, callsAfter, all);
      Frames.Snoc(moreCuts, 0);
      GroupAppend(all, comments, texts, col, reply, loads, antiGovt, antiReactionary,
                  done, doneCuts, prior, calls, Frames.Chunks(rows, 50), more, moreCuts, decodes, cuts, r);
      g, calls := g + 1, callsAfter;
    }
    Frames.Snoc(cuts, 0);
    SummaryExit(column, groups, comments, texts, col, reply, loads, antiGovt, antiReactionary, decodes, cuts, r, crashed, calls);
  }

  /** The batches of the whole-sheet branch: `ceil(n / 50)` slices of consecutive rows. */
  function Blocks(n: nat): (r: seq<seq<nat>>)
    ensures |r| == (n + 49) / 50 && Within(r, n)
  {
    seq((n + 49) / 50, b requires 0 <= b < (n + 49) / 50 => Range(b * 50, if b * 50 + 50 <= n then b * 50 + 50 else n))
  }

  /** Block `b` is the slice of rows from `b * 50`, at most 50 of them. */
  lemma {:induction false} BlockAt(n: nat, b: nat, start: nat, end: nat)
    requires b < (n + 49) / 50 && start == b * 50 && end == (if start + 50 <= n then start + 50 else n)
    ensures start < n && |Blocks(n)| == (n + 49) / 50 && Blocks(n)[b] == Range(start, end)
  {
  }

  /** Row `p` lies in block `p / 50` and in no other. */
  lemma {:induction false} BlocksCover(n: nat, p: nat)
    requires p < n
    ensures p / 50 < |Blocks(n)| && p in Blocks(n)[p / 50]
    ensures forall b :: 0 <= b < |Blocks(n)| && p in Blocks(n)[b] ==> b == p / 50
  {
    var b := p / 50;
    assert Blocks(n)[b][p - b * 50] == p;
  }

  /** The branch without a summary column: `ceil(n / 50)` batches of
      consecutive rows, with no context. Call `b` decodes block `b`; the
      column ends as the overlay of the blocks labelled before a reply that is
      not a dictionary ends the run, if one does. */
  method LabelAllRows(rm: RateLimit.RateLimitManager, col: seq<string>, comments: seq<string>, texts: seq<string>,
                      reply: nat -> nat -> Reply, clock: nat -> nat -> (RateLimit.Clock, RateLimit.Clock),
                      loads: string -> Option<Json>, antiGovt: string -> bool, antiReactionary: string -> bool)
    returns (r: seq<string>, crashed: bool, ghost decodes: seq<Json>, ghost cuts: seq<nat>)
    requires rm.Valid()
    requires |comments| == |col| && |texts| == |col|
    modifies rm`usage, rm`keyIndex
    ensures rm.Valid() && |r| == |col|
    ensures |cuts| == |decodes| + (if crashed then 1 else 0) <= |Blocks(|col|)|
    ensures decodes == Outcomes(Blocks(|col|), comments, reply, 0, loads, cuts[..|decodes|]) && Objects(decodes)
    ensures crashed ==> !Outcome(Blocks(|col|)[|decodes|], comments, reply(|decodes|), loads, cuts[|decodes|]).JObject?
    ensures !crashed ==> |decodes| == |Blocks(|col|)|
    ensures r == Overlay(col, Labelled(Blocks(|col|), decodes, texts, antiGovt, antiReactionary))
    ensures !crashed ==> forall p :: 0 <= p < |col| ==> FromName(r[p]).Some?
  {
    var n := |col|;
    var total := (n + 49) / 50;
    ghost var blocks := Blocks(n);
    r, crashed, decodes, cuts := col, false, [], [];
    var b := 0;
    while b < total
      invariant b <= total == |blocks| && rm.Valid() && |r| == n
      invariant |decodes| == |cuts| == b && !crashed
      invariant Progress(blocks, comments, texts, col, reply, 0, loads, antiGovt, antiReactionary, decodes, cuts, r)
    {
      var start := b * 50;
      var end := if start + 50 <= n then start + 50 else n;
      BlockAt(n, b, start, end);
      var batch := Range(start, end);
      var next, stop;
      ghost var decoded, cut;
      next, stop, decoded, cut := LabelBatch(rm, r, batch, comments, texts, "", reply(b), clock(b),
                                             loads, antiGovt, antiReactionary);
      if stop {
        Frames.Snoc(cuts, cut);
        crashed, cuts := true, cuts + [cut];
        BlocksExit(comments, texts, col, reply, loads, antiGovt, antiReactionary, decodes, cuts, r, crashed, batch, b);
        return;
      }
      ProgressNext(blocks, comments, texts, col, reply, 0, loads, antiGovt, antiReactionary,
                   decodes, cuts, r, batch, b, decoded, cut, next);
      r, b := next, b + 1;
      decodes, cuts := decodes + [decoded], cuts + [cut];
    }
    Frames.Snoc(cuts, 0);
    BlocksExit(comments, texts, col, reply, loads, antiGovt, antiReactionary, decodes, cuts, r, crashed, [], b);
  }

  /** Where the loop over the blocks stops, either after the last block or at
      the block whose reply does not decode to an object; once every block is
      labelled, every row holds a label name. */
  lemma {:induction false} BlocksExit(comments: seq<string>, texts: seq<string>, col: seq<string>,
                   reply: nat -> nat -> Reply, loads: string -> Option<Json>,
                   antiGovt: string -> bool, antiReactionary: string -> bool,
                   decodes: seq<Json>, cuts: seq<nat>, r: seq<string>, crashed: bool, batch: seq<nat>, call: nat)
    requires |comments| == |col| && |texts| == |col| && call == |decodes|
    requires |cuts| == |decodes| + (if crashed then 1 else 0) <= |Blocks(|col|)|
    requires Progress(Blocks(|col|), comments, texts, col, reply, 0, loads, antiGovt, antiReactionary,
                      decodes, cuts[..|decodes|], r)
    requires crashed ==> Blocks(|col|)[|decodes|] == batch
    requires crashed ==> !Outcome(batch, comments, reply(call), loads, cuts[|decodes|]).JObject?
    requires !crashed ==> |decodes| == |Blocks(|col|)|
    ensures |r| == |col|
    ensures decodes == Outcomes(Blocks(|col|), comments, reply, 0, loads, cuts[..|decodes|]) && Objects(decodes)
    ensures crashed ==> !Outcome(Blocks(|col|)[|decodes|], comments, reply(|decodes|), loads, cuts[|decodes|]).JObject?
    ensures r == Overlay(col, Labelled(Blocks(|col|), decodes, texts, antiGovt, antiReactionary))
    ensures !crashed ==> forall p :: 0 <= p < |col| ==> FromName(r[p]).Some?
  {
    if !crashed {
      forall p | 0 <= p < |col|
        ensures FromName(r[p]).Some?
      {
        BlocksCover(|col|, p);
        RowNamed(col, Blocks(|col|), decodes, texts, antiGovt, antiReactionary, p);
      }
    }
  }

  /** The batches of a run: by summary group when there is a summary column,
      otherwise blocks of the whole sheet. */
  function RunBatches(summaries: Option<seq<Option<string>>>, n: nat): (r: seq<seq<nat>>)
    requires summaries.Some? ==> |summaries.value| == n
    ensures Within(r, n)
  {
    match summaries
    case Some(column) => SummaryBatches(column)
    case None => Blocks(n)
  }

  /** `run_optimized_labeling` on the labeller's key pool: the model name is
      set (the caps stay those of construction), then the summary branch or
      the whole-sheet branch runs; call `b` of the run sees the replies
      `reply(b)` and the clocks `clock(b)` and decodes batch `b` of
      `RunBatches`. The column ends as the overlay, on the initial label
      column, of the batches labelled before a reply that is not a dictionary
      ends the run, if one does; unless one does, every selected row ends with
      a label name; rows without a summary are never touched. */
  method RunOptimizedLabeling(rm: RateLimit.RateLimitManager, model: string, comments: seq<string>,
                              summaries: Option<seq<Option<string>>>, labelCol: Option<seq<string>>,
                              reply: nat -> nat -> Reply, clock: nat -> nat -> (RateLimit.Clock, RateLimit.Clock),
                              loads: string -> Option<Json>, antiGovt: string -> bool, antiReactionary: string -> bool)
    returns (col: seq<string>, crashed: bool, ghost decodes: seq<Json>, ghost cuts: seq<nat>)
    requires rm.Valid()
    requires summaries.Some? ==> |summaries.value| == |comments|
    requires labelCol.Some? ==> |labelCol.value| == |comments|
    modifies rm`modelName, rm`usage, rm`keyIndex
    ensures rm.Valid() && rm.modelName == model
    ensures |col| == |comments|
    ensures |cuts| == |decodes| + (if crashed then 1 else 0) <= |RunBatches(summaries, |comments|)|
    ensures decodes == Outcomes(RunBatches(summaries, |comments|), comments, reply, 0, loads, cuts[..|decodes|]) && Objects(decodes)
    ensures crashed ==> |decodes| < |RunBatches(summaries, |comments|)|
                        && !Outcome(RunBatches(summaries, |comments|)[|decodes|], comments, reply(|decodes|), loads, cuts[|decodes|]).JObject?
    ensures !crashed ==> |decodes| == |RunBatches(summaries, |comments|)|
    ensures col == Overlay(InitialLabels(labelCol, |comments|),
                           Labelled(RunBatches(summaries, |comments|), decodes, LowerColumn(comments), antiGovt, antiReactionary))
    ensures !crashed ==> forall p :: 0 <= p < |col| && Selected(summaries, p) ==> FromName(col[p]).Some?
    ensures forall p :: 0 <= p < |col| && !Selected(summaries, p) ==> col[p] == InitialLabels(labelCol, |comments|)[p]
  {
    rm.SetModelName(model);
    var texts := LowerColumn(comments);
    var initial := InitialLabels(labelCol, |comments|);
    if summaries.Some? {
      col, crashed, decodes, cuts := LabelBySummary(rm, initial, summaries.value, comments, texts, reply, clock,
                                                   loads, antiGovt, antiReactionary);
    } else {
      col, crashed, decodes, cuts := LabelAllRows(rm, initial, comments, texts, reply, clock, loads, antiGovt, antiReactionary);
    }
  }
}
