/** The Facebook comment scraper: `autoExpand` with its 20 rounds at most,
    `waitForAllCommentsLoaded`, which rereads the comment blocks until their
    number has not changed for `maxTries` rounds or passes 2500, the post id
    read off the address, `convertFbTimeToDate` and the CSV of the first 2500
    blocks, empty ones skipped. What the page shows is given: the number of
    "view replies"/"more comments" controls on each round of `autoExpand`,
    and the blocks each reading returns, as the author `getAuthorName`
    found, the text `getCommentText` found and the text of the timestamp
    link, if any. The clock is a parameter: it gives the calendar day of the
    moment, adjusted to GMT+7, moved back by a whole number of units. */
module FacebookScraper {
  import Text
  import Csv
  import Dates
  import Patience
  import opened Wrappers

  // ---------------------------------------------------------------------
  // autoExpand

  /** The controls found on round `r`: the observed ones, none after them. */
  function Controls(found: seq<nat>, r: nat): nat {
    if r < |found| then found[r] else 0
  }

  /** `autoExpand`: click the controls and go on while some are found, for
      20 rounds at most. The result is the number of rounds that clicked. */
  method AutoExpand(found: seq<nat>) returns (tries: nat)
    ensures tries <= 20
    ensures forall r :: 0 <= r < tries ==> Controls(found, r) > 0
    ensures tries < 20 ==> Controls(found, tries) == 0
  {
    tries := 0;
    while tries < 20
      invariant tries <= 20
      invariant forall r :: 0 <= r < tries ==> Controls(found, r) > 0
    {
      var moreBtns := Controls(found, tries);
      if moreBtns == 0 {
        break;
      }
      tries := tries + 1;
    }
  }

  // ---------------------------------------------------------------------
  // waitForAllCommentsLoaded

  /** A comment block: its author, its comment text, and the text of its
      timestamp link (None when it has none). */
  datatype Block = Block(author: string, text: string, timestamp: Option<string>)

  /** The `k`-th reading of the blocks: the observed readings, and the last
      one again after them. */
  function Reading(views: seq<seq<Block>>, k: nat): seq<Block> {
    Patience.Seen(views, k, [])
  }

  /** `lastCount` before round `r`: 0 at first, then the count of the round
      before. */
  function LastCount(views: seq<seq<Block>>, r: nat): nat {
    if r == 0 then 0 else |Reading(views, r - 1)|
  }

  /** Which of the first `n` rounds changed the count. */
  function Changes(views: seq<seq<Block>>, n: nat): (f: seq<bool>)
    ensures |f| == n
    decreases n
  {
    if n == 0 then [] else Changes(views, n - 1) + [|Reading(views, n - 1)| != LastCount(views, n - 1)]
  }

  /** Round `r` changed the count exactly when its flag says so. */
  lemma {:induction false} ChangesAt(views: seq<seq<Block>>, n: nat, r: nat)
    requires r < n
    ensures Changes(views, n)[r] == (|Reading(views, r)| != LastCount(views, r))
    decreases n
  {
    if r < n - 1 {
      ChangesAt(views, n - 1, r);
    }
  }

  const CommentLimit: nat := 2500

  /** What the loop of `waitForAllCommentsLoaded` keeps after `rounds`
      rounds: the change flags, the patience counter `maxTries - tries`
      (`tries` counts up to `maxTries`), `lastCount`, and no reading so far
      over the limit. */
  predicate Waiting(views: seq<seq<Block>>, maxTries: nat, rounds: nat, flags: seq<bool>, tries: nat, lastCount: nat) {
    tries <= maxTries
    && flags == Changes(views, rounds)
    && (maxTries > 0 ==> Patience.Counting(maxTries, maxTries, flags, maxTries - tries))
    && (maxTries == 0 ==> rounds == 0)
    && lastCount == LastCount(views, rounds)
    && forall r :: 0 <= r < rounds ==> |Reading(views, r)| <= CommentLimit
  }

  /** One round within the limit: `tries` back to 0 after a change and up by
      one otherwise; once the readings are used up the count cannot change. */
  lemma {:induction false} WaitStep(views: seq<seq<Block>>, maxTries: nat, rounds: nat, flags: seq<bool>, tries: nat,
                                    lastCount: nat, changed: bool, next: nat)
    requires Waiting(views, maxTries, rounds, flags, tries, lastCount) && tries < maxTries
    requires |Reading(views, rounds)| <= CommentLimit
    requires changed == (|Reading(views, rounds)| != lastCount)
    requires next == if changed then 0 else tries + 1
    ensures Waiting(views, maxTries, rounds + 1, flags + [changed], next, |Reading(views, rounds)|)
    ensures rounds >= |views| ==> !changed
  {
    Patience.Count(maxTries, maxTries, flags, maxTries - tries, changed);
    if rounds >= |views| && rounds > 0 {
      Patience.SeenLast(views, rounds - 1, []);
    }
  }

  /** `waitForAllCommentsLoaded`: on each round (after `autoExpand`) read the
      blocks; more than 2500 ends the loop with that reading (`limited`);
      otherwise `tries` goes up when the count equals the one before and
      back to 0 when it changed, until it reaches `maxTries`, and the blocks
      are then read once more. `rounds` is the number of rounds. */
  method WaitForAllCommentsLoaded(views: seq<seq<Block>>, maxTries: nat) returns (blocks: seq<Block>, rounds: nat, limited: bool)
    ensures limited ==> rounds > 0 && blocks == Reading(views, rounds - 1) && |blocks| > CommentLimit
                        && Patience.Running(maxTries, maxTries, Changes(views, rounds - 1))
                        && forall r :: 0 <= r < rounds - 1 ==> |Reading(views, r)| <= CommentLimit
    ensures !limited ==> blocks == Reading(views, rounds) && forall r :: 0 <= r < rounds ==> |Reading(views, r)| <= CommentLimit
    ensures !limited && maxTries > 0 ==> Patience.Stops(maxTries, maxTries, Changes(views, rounds))
    ensures maxTries == 0 ==> rounds == 0 && !limited
  {
    var lastCount: nat := 0;
    var tries: nat := 0;
    rounds := 0;
    ghost var flags: seq<bool> := [];
    if maxTries > 0 {
      Patience.CountStart(maxTries, maxTries);
    }
    while tries < maxTries
      invariant Waiting(views, maxTries, rounds, flags, tries, lastCount)
      decreases if rounds < |views| then |views| - rounds else 0, maxTries - tries
    {
      var current := Reading(views, rounds);
      if |current| > CommentLimit {
        return current, rounds + 1, true;
      }
      var changed := |current| != lastCount;
      var next := if |current| == lastCount then tries + 1 else 0;
      WaitStep(views, maxTries, rounds, flags, tries, lastCount, changed, next);
      tries := next;
      lastCount := |current|;
      flags := flags + [changed];
      rounds := rounds + 1;
    }
    blocks := Reading(views, rounds);
    limited := false;
  }

  /** Unless the limit was reached, the loop ends after `maxTries` rounds in
      a row without a change of the count. */
  lemma {:induction false} WaitEnds(views: seq<seq<Block>>, maxTries: nat, rounds: nat)
    requires maxTries > 0 && Patience.Stops(maxTries, maxTries, Changes(views, rounds))
    ensures rounds >= maxTries
    ensures forall r :: rounds - maxTries <= r < rounds ==> |Reading(views, r)| == LastCount(views, r)
  {
    Patience.StopsIdle(maxTries, maxTries, Changes(views, rounds));
    forall r | rounds - maxTries <= r < rounds {
      ChangesAt(views, rounds, r);
    }
  }

  // ---------------------------------------------------------------------
  // getPostId

  /** The length of the run of ASCII digits of `s` from `i`. */
  function DigitRun(s: string, i: nat): (n: nat)
    requires i <= |s|
    ensures i + n <= |s| && forall k :: i <= k < i + n ==> Text.IsAsciiDigit(s[k])
    ensures i + n < |s| ==> !Text.IsAsciiDigit(s[i + n])
    decreases |s| - i
  {
    if i < |s| && Text.IsAsciiDigit(s[i]) then 1 + DigitRun(s, i + 1) else 0
  }

  /** `key` occurs at `q` and a digit follows it. */
  predicate KeyedAt(url: string, key: string, q: nat) {
    Text.OccursAt(url, key, q) && q + |key| < |url| && Text.IsAsciiDigit(url[q + |key|])
  }

  /** The digits after `key` at `q`, as many as there are. */
  function DigitsAt(url: string, key: string, q: nat): (d: string)
    requires KeyedAt(url, key, q)
    ensures Text.AllDigits(d)
  {
    var i := q + |key|;
    url[i..i + DigitRun(url, i)]
  }

  /** The regular expression `key(\d+)` searched from position `p`: the
      leftmost place where `key` is followed by a digit, and the digits
      there. */
  function MatchFrom(url: string, key: string, p: nat): (r: Option<string>)
    requires p <= |url|
    ensures r.Some? ==> Text.AllDigits(r.value)
    decreases |url| - p
  {
    if KeyedAt(url, key, p) then Some(DigitsAt(url, key, p))
    else if p == |url| then None
    else MatchFrom(url, key, p + 1)
  }

  /** There is no match exactly when `key` is nowhere followed by a
      digit. */
  lemma {:induction false} MatchNone(url: string, key: string, p: nat)
    requires p <= |url|
    ensures MatchFrom(url, key, p).None? <==> forall q :: p <= q <= |url| ==> !KeyedAt(url, key, q)
    decreases |url| - p
  {
    if !KeyedAt(url, key, p) && p < |url| {
      MatchNone(url, key, p + 1);
    }
  }

  /** A match is the digits at the leftmost place where `key` is followed by
      a digit. */
  lemma {:induction false} MatchLeftmost(url: string, key: string, p: nat)
    requires p <= |url| && MatchFrom(url, key, p).Some?
    ensures exists q :: p <= q <= |url| && KeyedAt(url, key, q) && MatchFrom(url, key, p).value == DigitsAt(url, key, q)
                        && forall q' :: p <= q' < q ==> !KeyedAt(url, key, q')
    decreases |url| - p
  {
    if !KeyedAt(url, key, p) {
      MatchLeftmost(url, key, p + 1);
      var q :| p + 1 <= q <= |url| && KeyedAt(url, key, q) && MatchFrom(url, key, p + 1).value == DigitsAt(url, key, q)
               && forall q' :: p + 1 <= q' < q ==> !KeyedAt(url, key, q');
      assert forall q' :: p <= q' < q ==> !KeyedAt(url, key, q');
    }
  }

  /** `getPostId`: the digits after "permalink/", else after "posts/", else
      'unknown'. */
  function PostId(url: string): (id: string)
    ensures id == "unknown" || Text.AllDigits(id)
  {
    match MatchFrom(url, "permalink/", 0)
    case Some(d) => d
    case None =>
      match MatchFrom(url, "posts/", 0)
      case Some(d) => d
      case None => "unknown"
  }

  /** The post id is 'unknown' exactly when neither "permalink/" nor "posts/"
      is followed by a digit anywhere, and otherwise the digits after the
      first "permalink/" that has some, or when there is none, after the
      first such "posts/". */
  lemma PostIdFacts(url: string)
    ensures PostId(url) == "unknown" <==>
              forall q :: 0 <= q <= |url| ==> !KeyedAt(url, "permalink/", q) && !KeyedAt(url, "posts/", q)
    ensures (exists q :: 0 <= q <= |url| && KeyedAt(url, "permalink/", q)) ==>
              exists q :: 0 <= q <= |url| && KeyedAt(url, "permalink/", q) && PostId(url) == DigitsAt(url, "permalink/", q)
                          && forall q' :: 0 <= q' < q ==> !KeyedAt(url, "permalink/", q')
  {
    MatchNone(url, "permalink/", 0);
    MatchNone(url, "posts/", 0);
    if MatchFrom(url, "permalink/", 0).Some? {
      MatchLeftmost(url, "permalink/", 0);
    }
    var id := PostId(url);
    if MatchFrom(url, "permalink/", 0).Some? || MatchFrom(url, "posts/", 0).Some? {
      assert Text.AllDigits(id);
      assert !Text.IsAsciiDigit("unknown"[0]);
    }
  }

  // ---------------------------------------------------------------------
  // convertFbTimeToDate

  /** The unit letters of the compact ages, and the move back each stands
      for: days, weeks of seven days, hours, minutes, seconds. */
  function UnitShift(u: char, n: nat): Option<Dates.Shift> {
    if u == 'd' then Some(Dates.Back(Dates.Days, n))
    else if u == 'w' then Some(Dates.Back(Dates.Days, n * 7))
    else if u == 'h' then Some(Dates.Back(Dates.Hours, n))
    else if u == 'm' then Some(Dates.Back(Dates.Minutes, n))
    else if u == 's' then Some(Dates.Back(Dates.Seconds, n))
    else None
  }

  /** The move back a raw age asks for: `/^\d+d$/` and its siblings, with
      `parseInt` reading the digits; None for any other text. */
  function AgeShift(raw: string): Option<Dates.Shift> {
    if |raw| >= 2 && Text.AllDigits(raw[..|raw| - 1]) then
      UnitShift(raw[|raw| - 1], Text.DigitsValue(raw[..|raw| - 1]))
    else None
  }

  /** `convertFbTimeToDate`. */
  function ConvertFbTime(raw: string, clock: Dates.Shift -> Dates.Day): (r: string)
    ensures AgeShift(raw).None? ==> r == raw
  {
    match AgeShift(raw)
    case None => raw
    case Some(shift) => Dates.Ddmmyyyy(clock(shift))
  }

  /** "<n>d", "<n>w", "<n>h", "<n>m" and "<n>s" are read as n units of
      the letter's kind. */
  lemma ConvertAge(n: nat, u: char, clock: Dates.Shift -> Dates.Day)
    requires u == 'd' || u == 'w' || u == 'h' || u == 'm' || u == 's'
    ensures AgeShift(Text.NatToString(n) + [u]) == UnitShift(u, n) && UnitShift(u, n).Some?
    ensures ConvertFbTime(Text.NatToString(n) + [u], clock) == Dates.Ddmmyyyy(clock(UnitShift(u, n).value))
  {
    var s := Text.NatToString(n) + [u];
    assert s[..|s| - 1] == Text.NatToString(n);
    Text.NatToStringValue(n);
  }

  /** A printed date is not a compact age: it has a '-' before its last
      character. */
  lemma PrintedNotAge(d: Dates.Day)
    ensures AgeShift(Dates.Ddmmyyyy(d)).None?
  {
    var r := Dates.Ddmmyyyy(d);
    var k := |Text.Pad2(d.day)|;
    assert r[..|r| - 1][k] == '-';
  }

  /** A converted date is kept as it is: converting twice is converting
      once. */
  lemma ConvertTwice(raw: string, clock: Dates.Shift -> Dates.Day)
    ensures ConvertFbTime(ConvertFbTime(raw, clock), clock) == ConvertFbTime(raw, clock)
  {
    if AgeShift(raw).Some? {
      PrintedNotAge(clock(AgeShift(raw).value));
    }
  }

  // ---------------------------------------------------------------------
  // scrapeComments

  const Header: seq<string> := ["post_id", "post_raw", "comment_id", "author", "created_time", "comment_raw"]

  /** The test that skips a block: no text, or only whitespace. */
  predicate HasText(b: Block) {
    b.text != "" && Text.JsTrim(b.text) != ""
  }

  /** The blocks that get a line, in order. */
  function Kept(blocks: seq<Block>): (r: seq<Block>)
    ensures |r| <= |blocks|
    decreases |blocks|
  {
    if blocks == [] then []
    else
      var p := Kept(blocks[..|blocks| - 1]);
      if HasText(blocks[|blocks| - 1]) then p + [blocks[|blocks| - 1]] else p
  }

  /** One more block: kept when it has text. */
  lemma KeptNext(blocks: seq<Block>, i: nat)
    requires i < |blocks|
    ensures Kept(blocks[..i + 1]) == if HasText(blocks[i]) then Kept(blocks[..i]) + [blocks[i]] else Kept(blocks[..i])
  {
    assert blocks[..i + 1][..i] == blocks[..i];
  }

  /** `post_id + '_' + validCommentCount`, for the `k`-th kept block. */
  function CommentId(postId: string, k: nat): string {
    postId + "_" + Text.NatToString(k + 1)
  }

  /** The timestamp column: the converted timestamp text, 'N/A' without a
      timestamp link. */
  function Created(b: Block, clock: Dates.Shift -> Dates.Day): string {
    ConvertFbTime(if b.timestamp.Some? then b.timestamp.value else "N/A", clock)
  }

  function Fields(b: Block, k: nat, postId: string, postRaw: string, created: Block -> string): seq<string> {
    [postId, postRaw, CommentId(postId, k), b.author, created(b), b.text]
  }

  function Rows(kept: seq<Block>, postId: string, postRaw: string, created: Block -> string): (r: seq<seq<string>>)
    ensures |r| == |kept| && forall k :: 0 <= k < |kept| ==> r[k] == Fields(kept[k], k, postId, postRaw, created)
  {
    seq(|kept|, k requires 0 <= k < |kept| => Fields(kept[k], k, postId, postRaw, created))
  }

  /** The text and count after the first `i` blocks. */
  predicate Written(blocks: seq<Block>, i: nat, postId: string, postRaw: string, created: Block -> string, csv: string, count: nat) {
    i <= |blocks|
    && count == |Kept(blocks[..i])|
    && csv == Csv.Sheet(Header, Rows(Kept(blocks[..i]), postId, postRaw, created))
  }

  /** The first 2500 blocks, or all of them. */
  function ToProcess(commentBlocks: seq<Block>): (r: seq<Block>)
    ensures |r| <= CommentLimit && |r| <= |commentBlocks| && r == commentBlocks[..|r|]
    ensures |commentBlocks| <= CommentLimit ==> r == commentBlocks
  {
    if |commentBlocks| <= CommentLimit then commentBlocks else commentBlocks[..CommentLimit]
  }

  /** The `forEach` of `scrapeComments` over the first 2500 blocks: a block
      without text is skipped, every other one gets the next id and a line of
      six quoted values. `created` is the timestamp column,
      `b => Created(b, clock)`. The result is the text and
      `validCommentCount`. */
  method BuildCsv(commentBlocks: seq<Block>, postId: string, postRaw: string, created: Block -> string)
    returns (csv: string, validCommentCount: nat)
    ensures csv == Csv.Sheet(Header, Rows(Kept(ToProcess(commentBlocks)), postId, postRaw, created))
    ensures validCommentCount == |Kept(ToProcess(commentBlocks))|
  {
    csv := Text.Join(Header, ",") + "\n";
    var blocksToProcess := ToProcess(commentBlocks);
    validCommentCount := 0;
    var i := 0;
    assert blocksToProcess[..0] == [];
    while i < |blocksToProcess|
      invariant Written(blocksToProcess, i, postId, postRaw, created, csv, validCommentCount)
    {
      csv, validCommentCount := Emit(blocksToProcess, i, postId, postRaw, created, csv, validCommentCount);
      i := i + 1;
    }
    assert blocksToProcess[..i] == blocksToProcess;
  }

  /** The body of the `forEach`: the line of block `i`, if it has text. */
  method Emit(blocks: seq<Block>, i: nat, postId: string, postRaw: string, created: Block -> string, csv: string, count: nat)
    returns (next: string, nextCount: nat)
    requires i < |blocks| && Written(blocks, i, postId, postRaw, created, csv, count)
    ensures Written(blocks, i + 1, postId, postRaw, created, next, nextCount)
  {
    var block := blocks[i];
    if block.text != "" && Text.JsTrim(block.text) != "" {
      var cells := [Csv.Quote(postId), Csv.Quote(postRaw), Csv.Quote(postId + "_" + Text.NatToString(count + 1)),
                    Csv.Quote(block.author), Csv.Quote(created(block)), Csv.Quote(block.text)];
      next := csv + (Text.Join(cells, ",") + "\n");
      WrittenNext(blocks, i, postId, postRaw, created, csv, count, cells, next);
      nextCount := count + 1;
    } else {
      WrittenSkip(blocks, i, postId, postRaw, created, csv, count);
      next, nextCount := csv, count;
    }
  }

  /** A block with text adds its line and takes the next id. */
  lemma {:induction false} WrittenNext(blocks: seq<Block>, i: nat, postId: string, postRaw: string, created: Block -> string,
                                       csv: string, count: nat, cells: seq<string>, next: string)
    requires i < |blocks| && Written(blocks, i, postId, postRaw, created, csv, count) && HasText(blocks[i])
    requires cells == [Csv.Quote(postId), Csv.Quote(postRaw), Csv.Quote(CommentId(postId, count)),
                       Csv.Quote(blocks[i].author), Csv.Quote(created(blocks[i])), Csv.Quote(blocks[i].text)]
    requires next == csv + (Text.Join(cells, ",") + "\n")
    ensures Written(blocks, i + 1, postId, postRaw, created, next, count + 1)
  {
    KeptNext(blocks, i);
    RowLine(Kept(blocks[..i]), blocks[i], postId, postRaw, created, cells);
  }

  /** A block without text changes nothing. */
  lemma {:induction false} WrittenSkip(blocks: seq<Block>, i: nat, postId: string, postRaw: string, created: Block -> string,
                                       csv: string, count: nat)
    requires i < |blocks| && Written(blocks, i, postId, postRaw, created, csv, count) && !HasText(blocks[i])
    ensures Written(blocks, i + 1, postId, postRaw, created, csv, count)
  {
    KeptNext(blocks, i);
  }

  /** One more kept block adds its quoted line. */
  lemma {:induction false} RowLine(kept: seq<Block>, b: Block, postId: string, postRaw: string, created: Block -> string, cells: seq<string>)
    requires cells == [Csv.Quote(postId), Csv.Quote(postRaw), Csv.Quote(CommentId(postId, |kept|)),
                       Csv.Quote(b.author), Csv.Quote(created(b)), Csv.Quote(b.text)]
    ensures Csv.Sheet(Header, Rows(kept + [b], postId, postRaw, created))
            == Csv.Sheet(Header, Rows(kept, postId, postRaw, created)) + (Text.Join(cells, ",") + "\n")
  {
    var f := Fields(b, |kept|, postId, postRaw, created);
    assert cells == Csv.QuoteAll(f);
    var rows := Rows(kept, postId, postRaw, created);
    assert Rows(kept + [b], postId, postRaw, created) == rows + [f];
    Csv.RecordsSnoc(rows, f);
  }

  /** Read back with `csv.reader`, the text gives the header and then each
      kept block's six values. */
  lemma {:induction false} CsvReadsBack(kept: seq<Block>, postId: string, postRaw: string, created: Block -> string)
    ensures Csv.ReadLines(Csv.Sheet(Header, Rows(kept, postId, postRaw, created)))
            == Some([Header] + Rows(kept, postId, postRaw, created))
  {
    assert forall i :: 0 <= i < |Header| ==> Csv.Plain(Header[i]);
    Csv.ReadSheet(Header, Rows(kept, postId, postRaw, created));
  }

  /** Every block with text among the ones processed gets a line, in order:
      the kept blocks are exactly the blocks with text. */
  lemma {:induction false} KeptExactly(blocks: seq<Block>)
    ensures forall b :: b in Kept(blocks) <==> b in blocks && HasText(b)
    decreases |blocks|
  {
    if blocks != [] {
      KeptExactly(blocks[..|blocks| - 1]);
      assert blocks == blocks[..|blocks| - 1] + [blocks[|blocks| - 1]];
    }
  }

  /** The ids number the kept blocks from 1 without gaps: different
      positions get different ids. */
  lemma IdsDistinct(postId: string, i: nat, j: nat)
    requires CommentId(postId, i) == CommentId(postId, j)
    ensures i == j
  {
    var k := |postId| + 1;
    assert CommentId(postId, i)[k..] == Text.NatToString(i + 1);
    assert CommentId(postId, j)[k..] == Text.NatToString(j + 1);
    Text.NatToStringInjective(i + 1, j + 1);
  }
}
