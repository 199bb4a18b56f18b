/** The TikTok comment scraper: the loop that scrolls until the number of
    first-level comments stops changing, the loop that clicks the "View"
    controls until none is left, the post id taken from the address, and
    the CSV of one line per comment element. What the page shows is given:
    the comment count after each scroll, the number of "View" controls found
    on each round, and for each comment element its nickname, text and age
    text. `formatDate` is `Dates.FormatDate`, with the clock as a parameter;
    the CSV takes it as the function `format` applied to each age text. */
module TikTokScraper {
  import Text
  import Csv
  import Dates
  import Patience
  import opened Wrappers

  // ---------------------------------------------------------------------
  // Loading first-level comments

  /** The number of comments after the scroll of round `r` on a page whose
      counts were observed as `counts` and stay at the last one afterwards
      (`initial`, the count before the loop, when none was observed). */
  function CountAfter(initial: nat, counts: seq<nat>, r: nat): nat {
    Patience.Seen(counts, r, initial)
  }

  /** `numOfcommentsBeforeScroll` on round `r`: the count of the round
      before, or the one taken before the loop. */
  function CountBefore(initial: nat, counts: seq<nat>, r: nat): nat {
    if r == 0 then initial else CountAfter(initial, counts, r - 1)
  }

  /** Which of the first `n` rounds changed the count. */
  function Changes(initial: nat, counts: seq<nat>, n: nat): (f: seq<bool>)
    ensures |f| == n
    decreases n
  {
    if n == 0 then []
    else Changes(initial, counts, n - 1) + [CountAfter(initial, counts, n - 1) != CountBefore(initial, counts, n - 1)]
  }

  /** Round `r` changed the count exactly when its flag says so. */
  lemma {:induction false} ChangesAt(initial: nat, counts: seq<nat>, n: nat, r: nat)
    requires r < n
    ensures Changes(initial, counts, n)[r] == (CountAfter(initial, counts, r) != CountBefore(initial, counts, r))
    decreases n
  {
    if r < n - 1 {
      ChangesAt(initial, counts, n - 1, r);
    }
  }

  /** Past the observations the count no longer changes. */
  lemma StillAfter(initial: nat, counts: seq<nat>, r: nat)
    requires r >= |counts|
    ensures CountAfter(initial, counts, r) == CountBefore(initial, counts, r)
  {
    if r > 0 {
      Patience.SeenLast(counts, r - 1, initial);
    }
  }

  /** One round of the first loop on the specification side: its flag, the
      counter after it, and no change once the observations are used up. */
  lemma {:induction false} FirstStep(initial: nat, counts: seq<nat>, rounds: nat, flags: seq<bool>, buffer: int, changed: bool)
    requires flags == Changes(initial, counts, rounds) && Patience.Counting(30, 15, flags, buffer) && buffer > 0
    requires changed == (CountAfter(initial, counts, rounds) != CountBefore(initial, counts, rounds))
    ensures flags + [changed] == Changes(initial, counts, rounds + 1)
    ensures Patience.Counting(30, 15, flags + [changed], if changed then 15 else buffer - 1)
    ensures rounds >= |counts| ==> !changed
  {
    Patience.Count(30, 15, flags, buffer, changed);
    if rounds >= |counts| {
      StillAfter(initial, counts, rounds);
    }
  }

  /** The first loop: scroll to the last comment, compare the count with the
      one before, the buffer back to 15 on a change and down by one
      otherwise, starting from 30. A round that starts without any comment
      fails on `lastComment.scrollIntoView` (`ok` false), which ends the
      script. `rounds` is the number of rounds completed and `last` the count
      the loop left in `numOfcommentsBeforeScroll`. */
  method LoadFirstLevel(initial: nat, counts: seq<nat>) returns (rounds: nat, last: nat, ok: bool)
    ensures forall r :: 0 <= r < rounds ==> CountBefore(initial, counts, r) > 0
    ensures last == CountBefore(initial, counts, rounds)
    ensures ok ==> Patience.Stops(30, 15, Changes(initial, counts, rounds))
    ensures !ok ==> Patience.Running(30, 15, Changes(initial, counts, rounds)) && last == 0
  {
    var loadingCommentsBuffer := 30;
    var numOfcommentsBeforeScroll := initial;
    rounds := 0;
    ghost var flags: seq<bool> := [];
    Patience.CountStart(30, 15);
    while loadingCommentsBuffer > 0
      invariant flags == Changes(initial, counts, rounds)
      invariant Patience.Counting(30, 15, flags, loadingCommentsBuffer)
      invariant numOfcommentsBeforeScroll == CountBefore(initial, counts, rounds)
      invariant forall r :: 0 <= r < rounds ==> CountBefore(initial, counts, r) > 0
      decreases if rounds < |counts| then |counts| - rounds else 0, loadingCommentsBuffer
    {
      if numOfcommentsBeforeScroll == 0 {
        return rounds, 0, false;
      }
      var numOfcommentsAftScroll := CountAfter(initial, counts, rounds);
      var changed := numOfcommentsAftScroll != numOfcommentsBeforeScroll;
      FirstStep(initial, counts, rounds, flags, loadingCommentsBuffer, changed);
      if changed {
        loadingCommentsBuffer := 15;
      } else {
        loadingCommentsBuffer := loadingCommentsBuffer - 1;
      }
      numOfcommentsBeforeScroll := numOfcommentsAftScroll;
      flags := flags + [changed];
      rounds := rounds + 1;
    }
    last := numOfcommentsBeforeScroll;
    ok := true;
  }

  /** The first loop ends after 15 rounds in a row without a change, or after
      30 rounds when the count never changed. */
  lemma {:induction false} FirstLevelEnds(initial: nat, counts: seq<nat>, rounds: nat)
    requires Patience.Stops(30, 15, Changes(initial, counts, rounds))
    ensures rounds >= 15
    ensures forall r :: rounds - 15 <= r < rounds ==> CountAfter(initial, counts, r) == CountBefore(initial, counts, r)
    ensures (forall r :: 0 <= r < rounds ==> CountAfter(initial, counts, r) == CountBefore(initial, counts, r)) ==> rounds == 30
  {
    var f := Changes(initial, counts, rounds);
    Patience.StopsIdle(30, 15, f);
    forall r | 0 <= r < rounds {
      ChangesAt(initial, counts, rounds, r);
    }
  }

  // ---------------------------------------------------------------------
  // Loading second-level comments

  /** The number of "View" controls found on round `r`: the observed ones,
      none after them. */
  function Found(found: seq<nat>, r: nat): nat {
    if r < |found| then found[r] else 0
  }

  /** Which of the first `n` rounds found a control. */
  function Clicked(found: seq<nat>, n: nat): (f: seq<bool>)
    ensures |f| == n && forall r :: 0 <= r < n ==> f[r] == (Found(found, r) > 0)
    decreases n
  {
    if n == 0 then [] else Clicked(found, n - 1) + [Found(found, n - 1) > 0]
  }

  /** The second loop: click every "View" control found, the buffer back to 5
      when one was found and down by one otherwise, starting from 5. The
      result is the number of rounds. */
  method LoadSecondLevel(found: seq<nat>) returns (rounds: nat)
    ensures Patience.Stops(5, 5, Clicked(found, rounds))
  {
    var loadingCommentsBuffer := 5;
    rounds := 0;
    ghost var flags: seq<bool> := [];
    Patience.CountStart(5, 5);
    while loadingCommentsBuffer > 0
      invariant flags == Clicked(found, rounds)
      invariant Patience.Counting(5, 5, flags, loadingCommentsBuffer)
      decreases if rounds < |found| then |found| - rounds else 0, loadingCommentsBuffer
    {
      var readMoreDivs := Found(found, rounds);
      Patience.Count(5, 5, flags, loadingCommentsBuffer, readMoreDivs > 0);
      if readMoreDivs == 0 {
        loadingCommentsBuffer := loadingCommentsBuffer - 1;
      } else {
        loadingCommentsBuffer := 5;
      }
      flags := flags + [readMoreDivs > 0];
      rounds := rounds + 1;
    }
  }

  /** The second loop ends after five rounds in a row that found no control,
      and at no earlier round had five such rounds followed one another. */
  lemma {:induction false} SecondLevelEnds(found: seq<nat>, rounds: nat)
    requires Patience.Stops(5, 5, Clicked(found, rounds))
    ensures rounds >= 5 && forall r :: rounds - 5 <= r < rounds ==> Found(found, r) == 0
    ensures forall k :: 0 <= k < rounds ==> Patience.Idle(Clicked(found, rounds)[..k]) < 5
  {
    var f := Clicked(found, rounds);
    Patience.StopsIdle(5, 5, f);
  }

  // ---------------------------------------------------------------------
  // post_id and post_raw

  /** `window.location.href.split('?')[0].split('/').pop()`: the last
      '/'-piece of the address without its query. */
  function PostId(url: string): (id: string)
    ensures !Text.Contains(id, "/")
  {
    var base := Text.SplitOn(url, "?")[0];
    var parts := Text.SplitOn(base, "/");
    Text.SplitOnPiecesFree(base, "/", |parts| - 1);
    parts[|parts| - 1]
  }

  /** An address that ends in "/<id>", maybe followed by a query, gives
      `<id>`. */
  lemma PostIdOf(path: string, id: string, query: string)
    requires forall i :: 0 <= i < |path| ==> path[i] != '?'
    requires forall i :: 0 <= i < |id| ==> id[i] != '?' && id[i] != '/'
    ensures PostId(path + "/" + id) == id
    ensures PostId(path + "/" + id + "?" + query) == id
  {
    var base := path + "/" + id;
    forall i | 0 <= i < |base| ensures base[i] != '?' {
      if i >= |path| + 1 {
        assert base[i] == id[i - |path| - 1];
      }
    }
    Text.SplitWithout(base, '?');
    Text.SplitAtFirst(base, '?', query);
    Text.SplitLastPiece(path, '/', id);
  }

  /** `post_raw`: the description's text, or "N/A" when there is none. */
  function PostRaw(description: Option<string>): string {
    match description
    case None => "N/A"
    case Some(d) => d
  }

  // ---------------------------------------------------------------------
  // The CSV

  /** A comment element: the nickname link's text, the comment text and the
      text of its age span. */
  datatype Element = Element(nickname: string, text: string, age: string)

  const Header: seq<string> := ["post_id", "post_raw", "comment_id", "author", "created_time", "comment_raw"]

  /** `post_id + "_" + (i + 1)`. */
  function CommentId(postId: string, i: nat): string {
    postId + "_" + Text.NatToString(i + 1)
  }

  /** The six values of the line of the element at position `i`. */
  function Fields(e: Element, i: nat, postId: string, postRaw: string, format: string -> string): seq<string> {
    [postId, postRaw, CommentId(postId, i), e.nickname, format(e.age), e.text]
  }

  function Rows(es: seq<Element>, postId: string, postRaw: string, format: string -> string): (r: seq<seq<string>>)
    ensures |r| == |es| && forall i :: 0 <= i < |es| ==> r[i] == Fields(es[i], i, postId, postRaw, format)
  {
    seq(|es|, i requires 0 <= i < |es| => Fields(es[i], i, postId, postRaw, format))
  }

  /** The final loop: the header line, then one line of six quoted values per
      comment element, in page order. `format` is `formatDate` on the age
      text: `s => Dates.FormatDate(Some(s), year, clock)`. */
  method BuildCsv(comments: seq<Element>, postId: string, postRaw: string, format: string -> string)
    returns (csv: string)
    ensures csv == Csv.Sheet(Header, Rows(comments, postId, postRaw, format))
  {
    csv := Text.Join(Header, ",") + "\n";
    var i := 0;
    while i < |comments|
      invariant i <= |comments|
      invariant csv == Csv.Sheet(Header, Rows(comments[..i], postId, postRaw, format))
    {
      var comment := comments[i];
      var timeCommentedAgo := format(comment.age);
      var comment_id := postId + "_" + Text.NatToString(i + 1);
      var cells := [Csv.Quote(postId), Csv.Quote(postRaw), Csv.Quote(comment_id),
                    Csv.Quote(comment.nickname), Csv.Quote(timeCommentedAgo), Csv.Quote(comment.text)];
      var line := Text.Join(cells, ",") + "\n";
      RowLine(comments, i, postId, postRaw, format, cells);
      csv := csv + line;
      i := i + 1;
    }
    assert comments[..i] == comments;
  }

  /** One more element adds its quoted line. */
  lemma {:induction false} RowLine(comments: seq<Element>, i: nat, postId: string, postRaw: string, format: string -> string, cells: seq<string>)
    requires i < |comments|
    requires cells == [Csv.Quote(postId), Csv.Quote(postRaw), Csv.Quote(CommentId(postId, i)),
                       Csv.Quote(comments[i].nickname), Csv.Quote(format(comments[i].age)),
                       Csv.Quote(comments[i].text)]
    ensures Csv.Sheet(Header, Rows(comments[..i + 1], postId, postRaw, format))
            == Csv.Sheet(Header, Rows(comments[..i], postId, postRaw, format)) + (Text.Join(cells, ",") + "\n")
  {
    var f := Fields(comments[i], i, postId, postRaw, format);
    assert cells == Csv.QuoteAll(f);
    var rows := Rows(comments[..i], postId, postRaw, format);
    assert Rows(comments[..i + 1], postId, postRaw, format) == rows + [f];
    Csv.RecordsSnoc(rows, f);
  }

  /** Read back with `csv.reader` as printed, before the converter rewrites
      its line breaks, the text gives the header and then each element's six
      values, as they were. */
  lemma {:induction false} CsvReadsBack(comments: seq<Element>, postId: string, postRaw: string, format: string -> string)
    ensures Csv.ReadLines(Csv.Sheet(Header, Rows(comments, postId, postRaw, format)))
            == Some([Header] + Rows(comments, postId, postRaw, format))
  {
    assert forall i :: 0 <= i < |Header| ==> Csv.Plain(Header[i]);
    Csv.ReadSheet(Header, Rows(comments, postId, postRaw, format));
  }

  /** The ids number the elements from 1: elements at different positions
      get different ids. */
  lemma IdsDistinct(postId: string, i: nat, j: nat)
    requires CommentId(postId, i) == CommentId(postId, j)
    ensures i == j
  {
    var k := |postId| + 1;
    assert CommentId(postId, i)[k..] == Text.NatToString(i + 1);
    assert CommentId(postId, j)[k..] == Text.NatToString(j + 1);
    Text.NatToStringInjective(i + 1, j + 1);
  }
}
