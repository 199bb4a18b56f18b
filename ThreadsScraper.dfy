/** The logic of the Threads comment scraper: the MD5-based comment ids, the
    extraction of the visible comments into the scraper's list (duplicates
    and empty comments skipped), the loading loop with its patience counter,
    and the CSV it prints. What the page shows is given: each element as the
    username `extractUsername` found, its `innerText` and the `datetime`
    attribute of its `time` element; `cleanCommentText` (regular
    expressions) and the date parsing of `new Date(isoString)` are
    parameters. */
module ThreadsScraper {
  import Text
  import Md5
  import Csv
  import Dates
  import Patience
  import opened Wrappers

  // ---------------------------------------------------------------------
  // UTF-16

  /** The UTF-16 code units of one character: itself below U+10000, else its
      surrogate pair. */
  function Units(c: char): (r: seq<Md5.CodeUnit>)
    ensures 1 <= |r| <= 2 && (|r| == 1 <==> (c as int) < 0x10000)
  {
    var v := c as int;
    if v < 0x10000 then [v as bv16]
    else
      var w := v - 0x10000;
      [(0xD800 + w / 0x400) as bv16, (0xDC00 + w % 0x400) as bv16]
  }

  /** The code units of a JavaScript string, which is what `length`,
      `substring` and `charCodeAt` count. */
  function Utf16(s: string): (r: seq<Md5.CodeUnit>)
    ensures |r| >= |s|
    decreases |s|
  {
    if s == [] then [] else Units(s[0]) + Utf16(s[1..])
  }

  // ---------------------------------------------------------------------
  // createCommentId

  /** The text `createCommentId` hashes, as code units: the trimmed author
      ("unknown" when there is none), the first 100 code units of the trimmed
      comment, the trimmed timestamp, joined by '|' and followed by
      "|threads_comment". */
  function IdInput(author: string, comment: string, timestamp: string): (r: seq<Md5.CodeUnit>)
    ensures |r| >= 3
  {
    var a := Text.JsTrim(if author == "" then "unknown" else author);
    Utf16(a) + Utf16("|") + Head(Utf16(Text.JsTrim(comment))) + Utf16("|") + Utf16(Text.JsTrim(timestamp)) + Utf16("|threads_comment")
  }

  /** `substring(0, 100)`: the first 100 code units, or all of them. */
  function Head(c: seq<Md5.CodeUnit>): (r: seq<Md5.CodeUnit>)
    ensures |r| == if |c| <= 100 then |c| else 100
    ensures r == c[..|r|]
  {
    if |c| <= 100 then c else c[..100]
  }

  /** The id `createCommentId` returns: "tc_" and the 32 hex digits of the MD5
      of that text. */
  function CommentId(author: string, comment: string, timestamp: string): (id: string)
    ensures |id| == 35 && id[..3] == "tc_"
    ensures forall i :: 3 <= i < 35 ==> Md5.IsHexDigit(id[i])
  {
    "tc_" + Md5.Hex(Md5.Digest(IdInput(author, comment, timestamp)))
  }

  /** `createCommentId`. */
  method CreateCommentId(author: string, comment: string, timestamp: string) returns (id: string)
    ensures id == CommentId(author, comment, timestamp)
  {
    var input := IdInput(author, comment, timestamp);
    var hash := Md5.HexMd5(input);
    id := "tc_" + hash;
  }

  /** Only the trimmed parts count: padding around the author, the comment or
      the timestamp does not change the id. */
  lemma {:induction false} IdOfTrimmed(author: string, comment: string, timestamp: string)
    requires author != "" && Text.JsTrim(author) != ""
    ensures CommentId(author, comment, timestamp)
            == CommentId(Text.JsTrim(author), Text.JsTrim(comment), Text.JsTrim(timestamp))
  {
    Text.StripByIdempotent(author, Text.IsJsSpace);
    Text.StripByIdempotent(comment, Text.IsJsSpace);
    Text.StripByIdempotent(timestamp, Text.IsJsSpace);
  }

  /** Two comments that agree on their first 100 code units get the same id. */
  lemma {:induction false} IdOfFirstHundred(author: string, c1: string, c2: string, timestamp: string)
    requires |Utf16(Text.JsTrim(c1))| >= 100 && |Utf16(Text.JsTrim(c2))| >= 100
    requires Utf16(Text.JsTrim(c1))[..100] == Utf16(Text.JsTrim(c2))[..100]
    ensures CommentId(author, c1, timestamp) == CommentId(author, c2, timestamp)
  {
    var x := Utf16(Text.JsTrim(c1));
    var y := Utf16(Text.JsTrim(c2));
    assert Head(x) == x[..100] && Head(y) == y[..100];
    assert IdInput(author, c1, timestamp) == IdInput(author, c2, timestamp);
  }

  // ---------------------------------------------------------------------
  // formatDateTime

  /** `formatDateTime`: '' for an empty attribute, the attribute itself when
      it is not a date, else the day as dd-mm-yyyy. `parse` stands for
      `new Date(isoString)`, None when `getTime()` is NaN. */
  function FormatDateTime(iso: string, parse: string -> Option<Dates.Day>): (r: string)
    ensures (r == "") == (iso == "")
    ensures iso != "" && parse(iso).None? ==> r == iso
  {
    if iso == "" then ""
    else
      match parse(iso)
      case None => iso
      case Some(d) => Dates.Ddmmyyyy(d)
  }

  // ---------------------------------------------------------------------
  // extractCommentData

  /** A comment element as the page shows it. */
  datatype Element = Element(username: string, text: string, datetime: Option<string>)

  /** An entry of the `comments` array. */
  datatype Comment = Comment(id: string, author: string, raw: string, created: string)

  /** What gives a comment its id from its author, text and timestamp. The
      script's `createCommentId` is `CommentId`; the collection below holds
      for any such function, which keeps the hash out of its proofs. */
  type IdMaker = (string, string, string) -> string

  /** JavaScript `s.replace(p, '')` with a string pattern: the first
      occurrence removed. */
  function RemoveFirst(s: string, p: string): (r: string)
    ensures Text.Contains(s, p) ==> |r| == |s| - |p|
    ensures !Text.Contains(s, p) ==> r == s
  {
    match Text.Find(s, p)
    case None => s
    case Some(i) => s[..i] + s[i + |p|..]
  }

  /** The comment text of an element: its trimmed text, with the username
      taken out when one was found, then cleaned. */
  function CommentText(e: Element, clean: string -> string): string {
    var t := Text.JsTrim(e.text);
    var u := if e.username != "Unknown" then Text.JsTrim(RemoveFirst(t, e.username)) else t;
    clean(u)
  }

  /** The timestamp of an element: '' with no `datetime` attribute. */
  function Timestamp(e: Element, parse: string -> Option<Dates.Day>): string {
    if e.datetime.None? then "" else FormatDateTime(e.datetime.value, parse)
  }

  /** The comment built from an element, before the duplicate test. */
  function Candidate(e: Element, clean: string -> string, parse: string -> Option<Dates.Day>, makeId: IdMaker): Comment {
    var text := CommentText(e, clean);
    var ts := Timestamp(e, parse);
    Comment(makeId(e.username, text, ts), e.username, text, ts)
  }

  function Candidates(es: seq<Element>, clean: string -> string, parse: string -> Option<Dates.Day>, makeId: IdMaker): (r: seq<Comment>)
    ensures |r| == |es| && forall i :: 0 <= i < |es| ==> r[i] == Candidate(es[i], clean, parse, makeId)
  {
    seq(|es|, i requires 0 <= i < |es| => Candidate(es[i], clean, parse, makeId))
  }

  /** The fields the duplicate test compares. */
  predicate SameComment(c: Comment, d: Comment) {
    c.author == d.author && c.raw == d.raw && c.created == d.created
  }

  /** `comments.some(...)`: a stored comment with the same author, text and
      date. */
  predicate Duplicate(stored: seq<Comment>, c: Comment) {
    exists j :: 0 <= j < |stored| && SameComment(stored[j], c)
  }

  /** The list after one candidate: appended when it is new and not empty. */
  function Add(stored: seq<Comment>, c: Comment): seq<Comment> {
    if Duplicate(stored, c) || c.raw == "" then stored else stored + [c]
  }

  /** The list after the candidates `cs`, in order. */
  function Collect(stored: seq<Comment>, cs: seq<Comment>): (r: seq<Comment>)
    ensures |stored| <= |r| <= |stored| + |cs|
    decreases |cs|
  {
    if cs == [] then stored else Add(Collect(stored, cs[..|cs| - 1]), cs[|cs| - 1])
  }

  /** The stored comments differ pairwise in author, text or date. */
  predicate Distinct(stored: seq<Comment>) {
    forall i, j :: 0 <= i < j < |stored| ==> !SameComment(stored[i], stored[j])
  }

  /** Every stored comment has some text. */
  predicate NonEmpty(stored: seq<Comment>) {
    forall i :: 0 <= i < |stored| ==> stored[i].raw != ""
  }

  /** Every comment carries the id of its own author, text and date. */
  predicate Identified(stored: seq<Comment>, makeId: IdMaker) {
    forall i :: 0 <= i < |stored| ==> stored[i].id == makeId(stored[i].author, stored[i].raw, stored[i].created)
  }

  class Scraper {
    /** The `comments` array of the script. */
    var comments: seq<Comment>

    constructor()
      ensures comments == []
    {
      comments := [];
    }

    /** `extractCommentData` on the elements the page shows now: each one
        becomes a candidate, whose id is computed, and is stored unless a
        stored comment has the same author, text and date or its text is
        empty. The result is the number stored. */
    method ExtractCommentData(elements: seq<Element>, clean: string -> string, parse: string -> Option<Dates.Day>, makeId: IdMaker)
      returns (newFound: nat)
      modifies this
      ensures comments == Collect(old(comments), Candidates(elements, clean, parse, makeId))
      ensures newFound == |comments| - |old(comments)|
    {
      ghost var start := comments;
      ghost var cs := Candidates(elements, clean, parse, makeId);
      newFound := 0;
      var i := 0;
      while i < |elements|
        invariant i <= |elements|
        invariant comments == Collect(start, cs[..i])
        invariant newFound == |comments| - |start|
      {
        var c := Extract(elements[i], clean, parse, makeId);
        assert cs[..i + 1][..i] == cs[..i];
        if !Duplicate(comments, c) && c.raw != "" {
          comments := comments + [c];
          newFound := newFound + 1;
        }
        i := i + 1;
      }
      assert cs[..|elements|] == cs;
    }
  }

  /** The body of the loop of `extractCommentData` up to the duplicate test. */
  method Extract(e: Element, clean: string -> string, parse: string -> Option<Dates.Day>, makeId: IdMaker) returns (c: Comment)
    ensures c == Candidate(e, clean, parse, makeId)
  {
    var username := e.username;
    var commentText := Text.JsTrim(e.text);
    if username != "Unknown" {
      commentText := Text.JsTrim(RemoveFirst(commentText, username));
    }
    var timestamp := "";
    if e.datetime.Some? {
      timestamp := FormatDateTime(e.datetime.value, parse);
    }
    commentText := clean(commentText);
    var commentId := makeId(username, commentText, timestamp);
    c := Comment(commentId, username, commentText, timestamp);
  }

  // ---------------------------------------------------------------------
  // Properties of the collection

  /** Collecting only appends, and what it appends is non-empty candidates. */
  lemma {:induction false} CollectAppends(stored: seq<Comment>, cs: seq<Comment>)
    ensures var r := Collect(stored, cs);
            r[..|stored|] == stored
            && forall k :: |stored| <= k < |r| ==> r[k].raw != "" && exists i :: 0 <= i < |cs| && r[k] == cs[i]
    decreases |cs|
  {
    if cs != [] {
      var p := cs[..|cs| - 1];
      var q := Collect(stored, p);
      CollectAppends(stored, p);
      forall k | |stored| <= k < |q| ensures exists i :: 0 <= i < |cs| && q[k] == cs[i] {
        var i :| 0 <= i < |p| && q[k] == p[i];
        assert cs[i] == p[i];
      }
      var c := cs[|cs| - 1];
      if !(Duplicate(q, c) || c.raw == "") {
        assert (q + [c])[..|stored|] == q[..|stored|];
      }
    }
  }

  /** The stored comments stay pairwise different and non-empty, and keep
      the ids of their own fields when the candidates have them. */
  lemma {:induction false} CollectDistinct(stored: seq<Comment>, cs: seq<Comment>, makeId: IdMaker)
    requires Distinct(stored) && NonEmpty(stored)
    requires Identified(stored, makeId) && Identified(cs, makeId)
    ensures Distinct(Collect(stored, cs)) && NonEmpty(Collect(stored, cs))
    ensures Identified(Collect(stored, cs), makeId)
    decreases |cs|
  {
    if cs != [] {
      var p := cs[..|cs| - 1];
      var q := Collect(stored, p);
      assert Identified(p, makeId) by {
        forall i | 0 <= i < |p| ensures p[i] == cs[i] {}
      }
      CollectDistinct(stored, p, makeId);
      var c := cs[|cs| - 1];
      if !(Duplicate(q, c) || c.raw == "") {
        var r := q + [c];
        forall i, j | 0 <= i < j < |r| ensures !SameComment(r[i], r[j]) {
          if j == |q| {
            assert r[i] == q[i];
          }
        }
      }
    }
  }

  /** The candidates carry the ids of their own fields. */
  lemma {:induction false} CandidatesIdentified(es: seq<Element>, clean: string -> string, parse: string -> Option<Dates.Day>, makeId: IdMaker)
    ensures Identified(Candidates(es, clean, parse, makeId), makeId)
  {
  }

  /** After collecting, every candidate with some text has a stored comment
      with the same author, text and date. */
  lemma {:induction false} CollectCovers(stored: seq<Comment>, cs: seq<Comment>)
    ensures forall i :: 0 <= i < |cs| ==> cs[i].raw == "" || Duplicate(Collect(stored, cs), cs[i])
    decreases |cs|
  {
    if cs != [] {
      var p := cs[..|cs| - 1];
      var q := Collect(stored, p);
      var r := Collect(stored, cs);
      CollectCovers(stored, p);
      assert r == Add(q, cs[|cs| - 1]);
      forall i | 0 <= i < |cs| && cs[i].raw != "" ensures Duplicate(r, cs[i]) {
        if i < |p| {
          assert p[i] == cs[i];
          var j :| 0 <= j < |q| && SameComment(q[j], cs[i]);
          assert r[j] == q[j];
        } else if !Duplicate(q, cs[i]) {
          assert r[|q|] == cs[i];
        }
      }
    }
  }

  /** Candidates that are all covered add nothing. */
  lemma {:induction false} CollectCovered(stored: seq<Comment>, cs: seq<Comment>)
    requires forall i :: 0 <= i < |cs| ==> cs[i].raw == "" || Duplicate(stored, cs[i])
    ensures Collect(stored, cs) == stored
    decreases |cs|
  {
    if cs != [] {
      CollectCovered(stored, cs[..|cs| - 1]);
    }
  }

  /** Extracting the same elements again stores nothing more. */
  lemma {:induction false} CollectIdempotent(stored: seq<Comment>, cs: seq<Comment>)
    ensures Collect(Collect(stored, cs), cs) == Collect(stored, cs)
  {
    CollectCovers(stored, cs);
    CollectCovered(Collect(stored, cs), cs);
  }

  // ---------------------------------------------------------------------
  // The loading loop

  /** The comments after the first `n` rounds of the loop on a page showing
      `pages[r]` on round `r` (and its last view from then on). */
  function Stored(pages: seq<seq<Element>>, n: nat, clean: string -> string, parse: string -> Option<Dates.Day>, makeId: IdMaker): seq<Comment>
    decreases n
  {
    if n == 0 then []
    else Collect(Stored(pages, n - 1, clean, parse, makeId), Candidates(Patience.Seen(pages, n - 1, []), clean, parse, makeId))
  }

  /** Once the last view has been extracted, the list is a fixed point. */
  predicate Settled(pages: seq<seq<Element>>, round: nat, stored: seq<Comment>,
                    clean: string -> string, parse: string -> Option<Dates.Day>, makeId: IdMaker) {
    round >= |pages| ==> Collect(stored, Candidates(Patience.Seen(pages, round, []), clean, parse, makeId)) == stored
  }

  /** The round after `round` keeps the list settled. */
  lemma {:induction false} SettledNext(pages: seq<seq<Element>>, round: nat, clean: string -> string, parse: string -> Option<Dates.Day>, makeId: IdMaker)
    requires Settled(pages, round, Stored(pages, round, clean, parse, makeId), clean, parse, makeId)
    ensures Settled(pages, round + 1, Stored(pages, round + 1, clean, parse, makeId), clean, parse, makeId)
  {
    if round + 1 >= |pages| {
      var st := Stored(pages, round, clean, parse, makeId);
      var cs := Candidates(Patience.Seen(pages, round, []), clean, parse, makeId);
      var cs' := Candidates(Patience.Seen(pages, round + 1, []), clean, parse, makeId);
      Patience.SeenLast(pages, round, []);
      assert cs' == cs;
      CollectIdempotent(st, cs);
      SettledByCollect(Stored(pages, round + 1, clean, parse, makeId), st, cs, cs');
    }
  }

  /** A list that is a fixed point of collecting `cs` stays one. */
  lemma {:induction false} SettledByCollect(next: seq<Comment>, st: seq<Comment>, cs: seq<Comment>, cs': seq<Comment>)
    requires next == Collect(st, cs) && cs' == cs
    requires Collect(Collect(st, cs), cs) == Collect(st, cs)
    ensures Collect(next, cs') == next
  {
  }

  /** The total logged after each of the first `n` rounds. */
  function Totals(pages: seq<seq<Element>>, n: nat, clean: string -> string, parse: string -> Option<Dates.Day>, makeId: IdMaker): (t: seq<nat>)
    ensures |t| == n
    decreases n
  {
    if n == 0 then [] else Totals(pages, n - 1, clean, parse, makeId) + [|Stored(pages, n, clean, parse, makeId)|]
  }

  /** Which of the first `n` rounds made the total grow (past 0, for the
      first). */
  function Flags(pages: seq<seq<Element>>, n: nat, clean: string -> string, parse: string -> Option<Dates.Day>, makeId: IdMaker): (f: seq<bool>)
    ensures |f| == n
    decreases n
  {
    if n == 0 then []
    else Flags(pages, n - 1, clean, parse, makeId)
         + [|Stored(pages, n, clean, parse, makeId)| > |Stored(pages, n - 1, clean, parse, makeId)|]
  }

  /** What the main loop keeps after the rounds logged in `totals`: the
      comments and the totals are those of the specification, `flags` are
      the growth flags, and once the last view is in, the list is settled. */
  predicate Loaded(pages: seq<seq<Element>>, clean: string -> string, parse: string -> Option<Dates.Day>, makeId: IdMaker,
                   comments: seq<Comment>, totals: seq<nat>, flags: seq<bool>) {
    comments == Stored(pages, |totals|, clean, parse, makeId)
    && totals == Totals(pages, |totals|, clean, parse, makeId)
    && flags == Flags(pages, |totals|, clean, parse, makeId)
    && Settled(pages, |totals|, comments, clean, parse, makeId)
  }

  /** One round of the main loop: `extractCommentData` on what the page
      shows, and whether the total grew. After the last view it cannot. */
  method Round(s: Scraper, pages: seq<seq<Element>>, clean: string -> string, parse: string -> Option<Dates.Day>, makeId: IdMaker,
               round: nat, ghost totals: seq<nat>, ghost flags: seq<bool>)
    returns (grew: bool)
    requires round == |totals|
    requires Loaded(pages, clean, parse, makeId, s.comments, totals, flags)
    modifies s
    ensures Loaded(pages, clean, parse, makeId, s.comments, totals + [|s.comments|], flags + [grew])
    ensures grew == (|s.comments| > |old(s.comments)|)
    ensures |totals| >= |pages| ==> !grew
  {
    ghost var before := s.comments;
    var previousCommentCount := |s.comments|;
    var newCommentsFound := s.ExtractCommentData(Patience.Seen(pages, round, []), clean, parse, makeId);
    grew := |s.comments| > previousCommentCount;
    LoadedNext(pages, clean, parse, makeId, before, totals, flags, s.comments, grew);
  }

  /** The specification side of a round: the list after `extractCommentData`
      on the next view is the next one, and it cannot grow once the last view
      is in. */
  lemma {:induction false} LoadedNext(pages: seq<seq<Element>>, clean: string -> string, parse: string -> Option<Dates.Day>, makeId: IdMaker,
                   comments: seq<Comment>, totals: seq<nat>, flags: seq<bool>, next: seq<Comment>, grew: bool)
    requires Loaded(pages, clean, parse, makeId, comments, totals, flags)
    requires next == Collect(comments, Candidates(Patience.Seen(pages, |totals|, []), clean, parse, makeId))
    requires grew == (|next| > |comments|)
    ensures Loaded(pages, clean, parse, makeId, next, totals + [|next|], flags + [grew])
    ensures |totals| >= |pages| ==> !grew
  {
    var n := |totals|;
    assert next == Stored(pages, n + 1, clean, parse, makeId);
    SettledNext(pages, n, clean, parse, makeId);
    TotalsNext(pages, n, clean, parse, makeId, totals);
    FlagsNext(pages, n, clean, parse, makeId, flags);
  }

  /** The totals of one more round. */
  lemma {:induction false} TotalsNext(pages: seq<seq<Element>>, n: nat, clean: string -> string, parse: string -> Option<Dates.Day>, makeId: IdMaker, totals: seq<nat>)
    requires totals == Totals(pages, n, clean, parse, makeId)
    ensures totals + [|Stored(pages, n + 1, clean, parse, makeId)|] == Totals(pages, n + 1, clean, parse, makeId)
  {
  }

  /** The flags of one more round. */
  lemma {:induction false} FlagsNext(pages: seq<seq<Element>>, n: nat, clean: string -> string, parse: string -> Option<Dates.Day>, makeId: IdMaker, flags: seq<bool>)
    requires flags == Flags(pages, n, clean, parse, makeId)
    ensures flags + [|Stored(pages, n + 1, clean, parse, makeId)| > |Stored(pages, n, clean, parse, makeId)|]
            == Flags(pages, n + 1, clean, parse, makeId)
  {
  }

  /** The main loop: `extractCommentData` on each round, the counter back to
      3 when the total grew and down by one otherwise, until it is 0. The
      result is the total logged after each round. */
  method Scrape(s: Scraper, pages: seq<seq<Element>>, clean: string -> string, parse: string -> Option<Dates.Day>, makeId: IdMaker)
    returns (totals: seq<nat>)
    modifies s
    ensures Loaded(pages, clean, parse, makeId, s.comments, totals, Flags(pages, |totals|, clean, parse, makeId))
    ensures Patience.Stops(3, 3, Flags(pages, |totals|, clean, parse, makeId))
  {
    s.comments := [];
    var loadingBuffer := 3;
    var previousCommentCount := 0;
    totals := [];
    ghost var flags: seq<bool> := [];
    Patience.CountStart(3, 3);
    while loadingBuffer > 0
      invariant Loaded(pages, clean, parse, makeId, s.comments, totals, flags)
      invariant previousCommentCount == |s.comments|
      invariant Patience.Counting(3, 3, flags, loadingBuffer)
      decreases if |totals| < |pages| then |pages| - |totals| else 0, loadingBuffer
    {
      var grew := Round(s, pages, clean, parse, makeId, |totals|, totals, flags);
      Patience.Count(3, 3, flags, loadingBuffer, grew);
      totals := totals + [|s.comments|];
      flags := flags + [grew];
      if grew {
        previousCommentCount := |s.comments|;
        loadingBuffer := 3;
      } else {
        loadingBuffer := loadingBuffer - 1;
      }
    }
  }

  /** The loop ends right after the third round in a row in which the total
      did not grow, and not before. */
  lemma {:induction false} StopsAfterThreeIdle(grew: seq<bool>)
    requires Patience.Stops(3, 3, grew)
    ensures |grew| >= 3 && !grew[|grew| - 1] && !grew[|grew| - 2] && !grew[|grew| - 3]
    ensures forall k :: 0 <= k < |grew| ==> Patience.Idle(grew[..k]) < 3
  {
    Patience.StopsExactly(3, 3, grew);
    Patience.IdleRounds(grew);
  }

  /** A list as the loop keeps it: pairwise different, none empty, each
      carrying the id of its own fields. */
  predicate Kept(st: seq<Comment>, makeId: IdMaker) {
    Distinct(st) && NonEmpty(st) && Identified(st, makeId)
  }

  /** `next` starts with `prev`. */
  predicate Extends(prev: seq<Comment>, next: seq<Comment>) {
    |prev| <= |next| && next[..|prev|] == prev
  }

  /** After any number of rounds the comments are pairwise different in
      author, text and date, none is empty, each carries the id of its own
      fields, and the list only grew. */
  lemma {:induction false} ScrapedFacts(pages: seq<seq<Element>>, n: nat, clean: string -> string, parse: string -> Option<Dates.Day>, makeId: IdMaker)
    ensures var st := Stored(pages, n, clean, parse, makeId);
            Distinct(st) && NonEmpty(st) && Identified(st, makeId)
    ensures n > 0 ==> Stored(pages, n, clean, parse, makeId)[..|Stored(pages, n - 1, clean, parse, makeId)|]
                      == Stored(pages, n - 1, clean, parse, makeId)
  {
    StoredKept(pages, n, clean, parse, makeId);
    if n > 0 {
      StoredGrows(pages, n, clean, parse, makeId);
    }
  }

  /** The first half of `ScrapedFacts`, folded into `Kept`. */
  lemma {:induction false} StoredKept(pages: seq<seq<Element>>, n: nat, clean: string -> string, parse: string -> Option<Dates.Day>, makeId: IdMaker)
    ensures Kept(Stored(pages, n, clean, parse, makeId), makeId)
  {
    var k := 0;
    while k < n
      invariant k <= n && Kept(Stored(pages, k, clean, parse, makeId), makeId)
    {
      StoredNext(pages, k + 1, clean, parse, makeId);
      k := k + 1;
    }
  }

  /** One round of `StoredKept`. */
  lemma {:induction false} StoredNext(pages: seq<seq<Element>>, n: nat, clean: string -> string, parse: string -> Option<Dates.Day>, makeId: IdMaker)
    requires n > 0 && Kept(Stored(pages, n - 1, clean, parse, makeId), makeId)
    ensures Kept(Stored(pages, n, clean, parse, makeId), makeId)
  {
    var view := Patience.Seen(pages, n - 1, []);
    CandidatesIdentified(view, clean, parse, makeId);
    CollectDistinct(Stored(pages, n - 1, clean, parse, makeId), Candidates(view, clean, parse, makeId), makeId);
  }

  /** The second half of `ScrapedFacts`: a round only appends. */
  lemma {:induction false} StoredGrows(pages: seq<seq<Element>>, n: nat, clean: string -> string, parse: string -> Option<Dates.Day>, makeId: IdMaker)
    requires n > 0
    ensures Extends(Stored(pages, n - 1, clean, parse, makeId), Stored(pages, n, clean, parse, makeId))
  {
    CollectAppends(Stored(pages, n - 1, clean, parse, makeId), Candidates(Patience.Seen(pages, n - 1, []), clean, parse, makeId));
  }

  /** What one collection keeps: a list of different, non-empty, identified
      comments stays one, and is a prefix of the new list. */
  lemma {:induction false} CollectFacts(stored: seq<Comment>, cs: seq<Comment>, makeId: IdMaker)
    requires Distinct(stored) && NonEmpty(stored)
    requires Identified(stored, makeId) && Identified(cs, makeId)
    ensures var r := Collect(stored, cs);
            Distinct(r) && NonEmpty(r) && Identified(r, makeId) && r[..|stored|] == stored
  {
    CollectDistinct(stored, cs, makeId);
    CollectAppends(stored, cs);
  }

  /** With the script's `createCommentId`, every stored id is "tc_" and 32
      hex digits, the MD5 of the comment's own author, text and date. */
  lemma {:induction false} ScrapedIds(pages: seq<seq<Element>>, n: nat, clean: string -> string, parse: string -> Option<Dates.Day>)
    ensures var st := Stored(pages, n, clean, parse, CommentId);
            forall i :: 0 <= i < |st| ==>
              st[i].id == "tc_" + Md5.Hex(Md5.Digest(IdInput(st[i].author, st[i].raw, st[i].created)))
              && |st[i].id| == 35 && st[i].id[..3] == "tc_"
  {
    ScrapedFacts(pages, n, clean, parse, CommentId);
  }

  // ---------------------------------------------------------------------
  // generateCsv

  const Header: seq<string> := ["post_id", "post_raw", "comment_id", "author", "created_date", "comment_raw"]

  /** The six values of a comment's line. */
  function Fields(c: Comment, postId: string, postContent: string): seq<string> {
    [postId, postContent, c.id, c.author, c.created, c.raw]
  }

  function Rows(comments: seq<Comment>, postId: string, postContent: string): (r: seq<seq<string>>)
    ensures |r| == |comments| && forall i :: 0 <= i < |comments| ==> r[i] == Fields(comments[i], postId, postContent)
  {
    seq(|comments|, i requires 0 <= i < |comments| => Fields(comments[i], postId, postContent))
  }

  /** `generateCsv`: the header line, then one line of six quoted values per
      comment. */
  method GenerateCsv(comments: seq<Comment>, postId: string, postContent: string) returns (csvContent: string)
    ensures csvContent == Csv.Sheet(Header, Rows(comments, postId, postContent))
  {
    csvContent := Text.Join(Header, ",") + "\n";
    var i := 0;
    while i < |comments|
      invariant i <= |comments|
      invariant csvContent == Csv.Sheet(Header, Rows(comments[..i], postId, postContent))
    {
      var c := comments[i];
      var row := [Csv.Cell(Some(postId)), Csv.Cell(Some(postContent)), Csv.Cell(Some(c.id)),
                  Csv.Cell(Some(c.author)), Csv.Cell(Some(c.created)), Csv.Cell(Some(c.raw))];
      RowLine(comments, i, postId, postContent, row);
      csvContent := csvContent + (Text.Join(row, ",") + "\n");
      i := i + 1;
    }
    assert comments[..i] == comments;
  }

  /** One more comment adds its quoted line. */
  lemma {:induction false} RowLine(comments: seq<Comment>, i: nat, postId: string, postContent: string, row: seq<string>)
    requires i < |comments|
    requires row == [Csv.Cell(Some(postId)), Csv.Cell(Some(postContent)), Csv.Cell(Some(comments[i].id)),
                     Csv.Cell(Some(comments[i].author)), Csv.Cell(Some(comments[i].created)), Csv.Cell(Some(comments[i].raw))]
    ensures Csv.Sheet(Header, Rows(comments[..i + 1], postId, postContent))
            == Csv.Sheet(Header, Rows(comments[..i], postId, postContent)) + (Text.Join(row, ",") + "\n")
  {
    var f := Fields(comments[i], postId, postContent);
    assert row == Csv.QuoteAll(f);
    var rows := Rows(comments[..i], postId, postContent);
    assert Rows(comments[..i + 1], postId, postContent) == rows + [f];
    Csv.RecordsSnoc(rows, f);
  }

  /** The header names need no quotes. */
  lemma {:induction false} HeaderPlain()
    ensures forall i :: 0 <= i < |Header| ==> Csv.Plain(Header[i])
  {
  }

  /** Read back with `csv.reader` as printed, before the converter rewrites
      its line breaks, the text gives the header and then each comment's six
      values, as they were. */
  lemma {:induction false} CsvReadsBack(comments: seq<Comment>, postId: string, postContent: string)
    ensures Csv.ReadLines(Csv.Sheet(Header, Rows(comments, postId, postContent)))
            == Some([Header] + Rows(comments, postId, postContent))
  {
    HeaderPlain();
    Csv.ReadSheet(Header, Rows(comments, postId, postContent));
  }
}
