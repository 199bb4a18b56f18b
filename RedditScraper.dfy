/** The Reddit comment scraper: the post id taken from the address or the
    post element, the post text made of its title and paragraphs, the
    expansion of collapsed threads (the set of buttons already clicked, the
    recursive passes of `clickExpandButtons`, the rounds of
    `processNestedComments` and the two scrolling loops around them), the
    text of a comment made of its paragraphs, and the CSV of one line per
    comment with text. What the page shows is given: the address, the post
    element's id, the title and paragraph texts, the expand buttons found
    for a set of buttons clicked so far, the page heights after each scroll,
    and for each `shreddit-comment` element its text, author attribute, time
    text and paragraphs. `formatDate` is `Dates.FormatDate`, with the clock
    as a parameter; the CSV takes it as the function `format` applied to
    each trimmed time text. The random numbers of the fallback ids are
    parameters too. */
module RedditScraper {
  import Text
  import Csv
  import opened Wrappers

  // ---------------------------------------------------------------------
  // post_id

  /** `window.location.href.split('?')[0]`. */
  function Address(href: string): string {
    Text.SplitOn(href, "?")[0]
  }

  /** The id when the address has no "/comments/": the post element's
      non-empty `id` attribute, else "post_" and a random number below
      1000000. */
  function Fallback(postElemId: Option<string>, draw: nat): string {
    if postElemId.Some? && postElemId.value != "" then postElemId.value else "post_" + Text.NatToString(draw)
  }

  /** `post_id`: the piece after the first "/comments/" of the address, up to
      the next '/'; else the fallback. */
  function PostId(href: string, postElemId: Option<string>, draw: nat): (id: string)
    ensures Text.Contains(Address(href), "/comments/") ==> !Text.Contains(id, "/")
    ensures !Text.Contains(Address(href), "/comments/") ==> id == Fallback(postElemId, draw)
  {
    var url := Address(href);
    if Text.Contains(url, "/comments/") then
      Text.SplitOnFound(url, "/comments/", Text.Find(url, "/comments/").value);
      var after := Text.SplitOn(url, "/comments/")[1];
      Text.SplitOnPiecesFree(after, "/", 0);
      Text.SplitOn(after, "/")[0]
    else Fallback(postElemId, draw)
  }

  /** A post address `<prefix>/comments/<id>/<rest>` without a query gives
      `<id>`, when the prefix holds no "/comments/" of its own and none
      starts after the id. */
  lemma PostIdOf(prefix: string, id: string, rest: string, postElemId: Option<string>, draw: nat)
    requires forall i :: 0 <= i < |prefix| ==> prefix[i] != '?'
    requires forall i :: 0 <= i < |id| ==> id[i] != '?' && id[i] != '/'
    requires forall i :: 0 <= i < |rest| ==> rest[i] != '?'
    requires !Text.Contains(prefix + "/comments", "/comments/")
    requires !Text.Contains("/" + rest, "/comments/")
    ensures PostId(prefix + "/comments/" + id + "/" + rest, postElemId, draw) == id
  {
    var sep := "/comments/";
    var tail := id + "/" + rest;
    var href := prefix + sep + tail;
    assert href == prefix + "/comments/" + id + "/" + rest;
    forall i | 0 <= i < |href| ensures href[i] != '?' {
      if i < |prefix| {
        assert href[i] == prefix[i];
      } else if i >= |prefix| + |sep| + |id| + 1 {
        assert href[i] == rest[i - |prefix| - |sep| - |id| - 1];
      } else if i >= |prefix| + |sep| && i < |prefix| + |sep| + |id| {
        assert href[i] == id[i - |prefix| - |sep|];
      }
    }
    Text.SplitWithout(href, '?');
    assert Address(href) == href;
    FindAfter(prefix, sep, tail);
    Text.SplitOnFound(href, sep, |prefix|);
    assert href[|prefix| + |sep|..] == tail;
    NoSeparator(id, rest);
    assert Text.SplitOn(tail, sep) == [tail];
    Text.SplitAtFirst(id, '/', rest);
  }

  /** The first "/comments/" of `prefix + "/comments/" + tail` is the one
      after the prefix. */
  lemma FindAfter(prefix: string, sep: string, tail: string)
    requires sep == "/comments/"
    requires !Text.Contains(prefix + "/comments", sep)
    ensures Text.Find(prefix + sep + tail, sep) == Some(|prefix|)
  {
    var href := prefix + sep + tail;
    assert href[|prefix|..|prefix| + |sep|] == sep;
    var body := prefix + "/comments";
    assert href[0..|body|] == body;
    forall j | 0 <= j < |prefix| ensures !Text.OccursAt(href, sep, j) {
      Text.NotWithin(href, sep, 0, body, j);
    }
    Text.FindFromIs(href, sep, 0, |prefix|);
  }

  /** `<id>/<rest>` holds no "/comments/" when the id has no '/' and none
      starts at the '/'. */
  lemma NoSeparator(id: string, rest: string)
    requires forall i :: 0 <= i < |id| ==> id[i] != '/'
    requires !Text.Contains("/" + rest, "/comments/")
    ensures Text.Find(id + "/" + rest, "/comments/") == None
  {
    var sep := "/comments/";
    var tail := id + "/" + rest;
    var body := "/" + rest;
    assert tail[|id|..|id| + |body|] == body;
    forall j | 0 <= j <= |tail| ensures !Text.OccursAt(tail, sep, j) {
      if j < |id| {
        assert tail[j] == id[j];
        if j + |sep| <= |tail| {
          assert tail[j..j + |sep|][0] == tail[j];
        }
      } else if j + |sep| <= |tail| {
        Text.NotWithin(tail, sep, |id|, body, j);
      }
    }
  }

  // ---------------------------------------------------------------------
  // post_raw

  /** `titleElems[0].textContent.trim()`, or "" without a title element. */
  function TitleText(title: Option<string>): string {
    match title
    case None => ""
    case Some(t) => Text.JsTrim(t)
  }

  /** Each text trimmed. */
  function Trimmed(texts: seq<string>): (r: seq<string>)
    ensures |r| == |texts| && forall k :: 0 <= k < |texts| ==> r[k] == Text.JsTrim(texts[k])
  {
    seq(|texts|, k requires 0 <= k < |texts| => Text.JsTrim(texts[k]))
  }

  /** The post paragraphs, each trimmed, joined by ' '; "" without one. */
  function ContentText(contents: seq<string>): string {
    if |contents| > 0 then Text.Join(Trimmed(contents), " ") else ""
  }

  /** `post_raw`: the title, a line break and the content; whichever of them
      is not empty; or "N/A". */
  function PostRaw(title: Option<string>, contents: seq<string>): (r: string)
    ensures r != ""
    ensures TitleText(title) != "" ==> TitleText(title) <= r
    ensures TitleText(title) == "" ==> r == if ContentText(contents) != "" then ContentText(contents) else "N/A"
  {
    var postTitle := TitleText(title);
    var postContent := ContentText(contents);
    if postTitle != "" && postContent != "" then postTitle + "\n" + postContent
    else if postTitle != "" then postTitle
    else if postContent != "" then postContent
    else "N/A"
  }

  /** With a one-line title and some content, the first line of `post_raw`
      is the title and the others are the content's lines. */
  lemma PostRawLines(title: Option<string>, contents: seq<string>)
    requires TitleText(title) != "" && ContentText(contents) != ""
    requires forall i :: 0 <= i < |TitleText(title)| ==> TitleText(title)[i] != '\n'
    ensures Text.SplitOn(PostRaw(title, contents), "\n") == [TitleText(title)] + Text.SplitOn(ContentText(contents), "\n")
  {
    Text.SplitAtFirst(TitleText(title), '\n', ContentText(contents));
  }

  /** Blank paragraphs are trimmed but still joined: two of them, without
      a title, give a post text of one space rather than "N/A". */
  lemma BlankParagraphs()
    ensures PostRaw(None, [" ", " "]) == " "
  {
    var t := Trimmed([" ", " "]);
    assert Text.LeadCount(" ", Text.IsJsSpace) == 1;
    assert t[0] == "" && t[1] == "";
    assert Text.Join(t, " ") == "" + " " + Text.Join(t[1..], " ");
  }

  // ---------------------------------------------------------------------
  // Expanding collapsed threads

  /** The expand buttons, as numbers, and the ones clicked so far.
      `page(clicked)` is what the expand-button XPath finds once the buttons
      `clicked` have been clicked, in document order. `passes` counts the
      passes of `clickExpandButtons`. */
  class Expander {
    const page: set<nat> -> seq<nat>
    var clicked: set<nat>
    var clicks: seq<nat>
    ghost var passes: nat

    /** `clickedButtons` is the set of the buttons clicked, each clicked
        once. */
    predicate Valid()
      reads this
    {
      (forall i, j :: 0 <= i < j < |clicks| ==> clicks[i] != clicks[j])
      && clicked == set b | b in clicks
    }

    /** Every button the page shows is clicked already. */
    predicate Exhausted()
      reads this
    {
      forall k :: 0 <= k < |page(clicked)| ==> page(clicked)[k] in clicked
    }

    constructor(page: set<nat> -> seq<nat>)
      ensures this.page == page && clicked == {} && clicks == [] && passes == 0
      ensures Valid()
    {
      this.page := page;
      clicked := {};
      clicks := [];
      passes := 0;
    }

    /** `button.click(); clickedButtons.add(button)`. */
    method Click(button: nat)
      modifies this
      requires Valid() && button !in clicked
      ensures Valid()
      ensures clicks == old(clicks) + [button] && clicked == old(clicked) + {button}
      ensures passes == old(passes)
    {
      clicks := clicks + [button];
      clicked := clicked + {button};
      assert forall b :: b in clicks <==> b in old(clicks) || b == button;
    }

    /** The click loop over a snapshot of buttons: those not clicked yet
        are clicked, in order. The result is `foundNewButtons`. */
    method ClickPass(buttons: seq<nat>) returns (foundNew: bool)
      modifies this
      requires Valid()
      ensures Valid() && old(clicks) <= clicks && passes == old(passes)
      ensures forall k :: 0 <= k < |buttons| ==> buttons[k] in clicked
      ensures forall b :: b in clicked ==> b in old(clicked) || b in buttons
      ensures foundNew <==> |clicks| > |old(clicks)|
    {
      foundNew := false;
      var k := 0;
      while k < |buttons|
        invariant k <= |buttons| && Valid() && old(clicks) <= clicks && passes == old(passes)
        invariant forall j :: 0 <= j < k ==> buttons[j] in clicked
        invariant forall b :: b in clicked ==> b in old(clicked) || b in buttons
        invariant foundNew <==> |clicks| > |old(clicks)|
      {
        var button := buttons[k];
        if button !in clicked {
          Click(button);
          foundNew := true;
        }
        k := k + 1;
      }
    }

    /** `clickExpandButtons(maxDepth, currentDepth)`: at most
        `maxDepth - currentDepth` passes, a further one only after a pass
        clicked a new button; when it stops before the depth limit, every
        button the page shows is clicked. */
    method ClickExpandButtons(maxDepth: nat, currentDepth: nat)
      modifies this
      requires Valid()
      ensures Valid() && old(clicks) <= clicks
      ensures passes <= old(passes) + Depth(maxDepth, currentDepth)
      ensures passes < old(passes) + Depth(maxDepth, currentDepth) ==> Exhausted()
      decreases Depth(maxDepth, currentDepth)
    {
      if currentDepth >= maxDepth {
        return;
      }
      var expandButtons := page(clicked);
      passes := passes + 1;
      if |expandButtons| > 0 {
        var foundNewButtons := ClickPass(expandButtons);
        if foundNewButtons {
          ClickExpandButtons(maxDepth, currentDepth + 1);
        } else {
          assert clicks == old(clicks);
        }
      }
    }

    /** `processNestedComments(maxIterations)`: at most `maxIterations`
        rounds, each clicking every button the page shows that is not
        clicked yet; it stops early once there is none, so it ends with
        every shown button clicked or with a new button clicked on every
        round. */
    method ProcessNestedComments(maxIterations: nat)
      modifies this
      requires Valid()
      ensures Valid() && old(clicks) <= clicks && passes == old(passes)
      ensures Exhausted() || |clicks| >= |old(clicks)| + maxIterations
    {
      var iteration := 0;
      while iteration < maxIterations
        invariant iteration <= maxIterations
        invariant Valid() && old(clicks) <= clicks && passes == old(passes)
        invariant |clicks| >= |old(clicks)| + iteration
      {
        var remainingButtons := page(clicked);
        var unclickedButtons := Unclicked(remainingButtons, clicked);
        if |unclickedButtons| == 0 {
          return;
        }
        ghost var before := clicks;
        var _ := ClickPass(unclickedButtons);
        assert unclickedButtons[0] in clicked - set b | b in before;
        iteration := iteration + 1;
      }
    }

    /** `loadAllComments`: scroll until the height settles (at most 15
        times), the expand passes, scroll again (at most 5 times), then the
        nested rounds. `firstHeights` and `secondHeights` are the page
        heights before the scrolls and after each one. The result is the
        numbers of scrolls. */
    method LoadAllComments(firstHeights: nat -> nat, secondHeights: nat -> nat)
      returns (firstScrolls: nat, secondScrolls: nat)
      modifies this
      requires Valid()
      ensures Valid() && old(clicks) <= clicks
      ensures firstScrolls <= 15 && secondScrolls <= 5
      ensures passes <= old(passes) + 20
    {
      firstScrolls := ScrollUntilSettled(firstHeights, 15);
      ClickExpandButtons(20, 0);
      secondScrolls := ScrollUntilSettled(secondHeights, 5);
      ProcessNestedComments(5);
    }
  }

  /** The passes left to `clickExpandButtons` at depth `currentDepth`. */
  function Depth(maxDepth: nat, currentDepth: nat): nat {
    if currentDepth < maxDepth then maxDepth - currentDepth else 0
  }

  /** `remainingButtons.filter(button => !clickedButtons.has(button))`. */
  function Unclicked(buttons: seq<nat>, clicked: set<nat>): (r: seq<nat>)
    ensures forall k :: 0 <= k < |r| ==> r[k] !in clicked && r[k] in buttons
    ensures r == [] <==> forall k :: 0 <= k < |buttons| ==> buttons[k] in clicked
  {
    if buttons == [] then []
    else
      var rest := Unclicked(buttons[1..], clicked);
      assert forall k :: 1 <= k < |buttons| ==> buttons[k] == buttons[1..][k - 1];
      if buttons[0] in clicked then rest else [buttons[0]] + rest
  }

  /** The height loop stops after `k` scrolls: the height then equals the
      one before the scroll (the one before the first scroll is taken as
      0). */
  predicate Settled(height: nat -> nat, k: nat) {
    if k == 0 then height(0) == 0 else height(k) == height(k - 1)
  }

  /** `while (previousHeight !== currentHeight && attempts < limit)`: the
      number of scrolls, the first after which the height settled, or the
      limit. */
  method ScrollUntilSettled(height: nat -> nat, limit: nat) returns (attempts: nat)
    ensures attempts <= limit
    ensures forall k :: 0 <= k < attempts ==> !Settled(height, k)
    ensures attempts == limit || Settled(height, attempts)
  {
    var previousHeight := 0;
    var currentHeight := height(0);
    attempts := 0;
    while previousHeight != currentHeight && attempts < limit
      invariant attempts <= limit && currentHeight == height(attempts)
      invariant previousHeight == if attempts == 0 then 0 else height(attempts - 1)
      invariant forall k :: 0 <= k < attempts ==> !Settled(height, k)
      decreases limit - attempts
    {
      previousHeight := currentHeight;
      attempts := attempts + 1;
      currentHeight := height(attempts);
    }
  }

  // ---------------------------------------------------------------------
  // The comments

  /** A `shreddit-comment` element: its whole text, its `author` attribute
      ("" when absent), the text of its `faceplate-timeago time` element,
      and the paragraphs of its own content `div` (None when it has no
      `thingid` or no such `div`). */
  datatype Element = Element(textContent: string, author: string, time: Option<string>, paragraphs: Option<seq<string>>)

  /** Only `""` is dropped by the paragraph filter. */
  predicate IsEmptyText(t: string) {
    t == ""
  }

  /** `extractCommentContent`: the non-empty trimmed paragraphs joined by
      ' '; None (`null`) without a content `div` or without a paragraph. */
  function ExtractContent(paragraphs: Option<seq<string>>): (r: Option<string>)
    ensures r.None? <==> paragraphs.None? || paragraphs.value == []
  {
    match paragraphs
    case None => None
    case Some(ps) =>
      if |ps| == 0 then None
      else Some(Text.Join(Text.Keep(Trimmed(ps), IsEmptyText), " "))
  }

  /** A comment's text is not blank exactly when one of its paragraphs is
      not. */
  lemma ContentBlank(ps: seq<string>)
    requires ps != []
    ensures var c := ExtractContent(Some(ps)).value;
      Text.JsTrim(c) != "" <==> exists k :: 0 <= k < |ps| && Text.JsTrim(ps[k]) != ""
  {
    var t := Trimmed(ps);
    forall k | 0 <= k < |t| && t[k] != "" ensures !Text.IsJsSpace(t[k][0]) {
      assert t[k] == Text.JsTrim(ps[k]);
    }
    JoinKeptBlank(t);
    assert ExtractContent(Some(ps)).value == Text.Join(Text.Keep(t, IsEmptyText), " ");
  }

  /** Joining the non-empty pieces, none starting with a space, gives a
      text that trims to nothing exactly when every piece is empty. */
  lemma JoinKeptBlank(t: seq<string>)
    requires forall k :: 0 <= k < |t| && t[k] != "" ==> !Text.IsJsSpace(t[k][0])
    ensures Text.JsTrim(Text.Join(Text.Keep(t, IsEmptyText), " ")) != "" <==> exists k :: 0 <= k < |t| && t[k] != ""
  {
    var parts := Text.Keep(t, IsEmptyText);
    KeepEmpty(t, IsEmptyText);
    if parts == [] {
      assert Text.JsTrim([]) == [];
    } else {
      KeptTrimmed(t, parts);
      JoinHead(parts);
      TrimHead(Text.Join(parts, " "));
    }
  }

  /** A join of pieces starts with the first piece's first character. */
  lemma JoinHead(parts: seq<string>)
    requires parts != [] && parts[0] != ""
    ensures Text.Join(parts, " ") != "" && Text.Join(parts, " ")[0] == parts[0][0]
  {
    if |parts| > 1 {
      assert Text.Join(parts, " ") == parts[0] + " " + Text.Join(parts[1..], " ");
    }
  }

  /** A text that starts with no space does not trim to nothing. */
  lemma TrimHead(s: string)
    requires s != "" && !Text.IsJsSpace(s[0])
    ensures Text.JsTrim(s) != ""
  {
    assert Text.LeadCount(s, Text.IsJsSpace) == 0;
    assert Text.StrippedAt(s, Text.JsTrim(s), Text.IsJsSpace, 0);
  }

  /** `Keep` gives nothing exactly when every element is dropped, and its
      first element is one that is not. */
  lemma {:induction false} KeepEmpty<T>(s: seq<T>, ws: T -> bool)
    ensures Text.Keep(s, ws) == [] <==> forall k :: 0 <= k < |s| ==> ws(s[k])
    ensures Text.Keep(s, ws) != [] ==> exists k :: 0 <= k < |s| && !ws(s[k]) && Text.Keep(s, ws)[0] == s[k]
    decreases |s|
  {
    if s != [] {
      KeepEmpty(s[1..], ws);
      assert forall k :: 1 <= k < |s| ==> s[k] == s[1..][k - 1];
      if !ws(s[0]) {
        assert Text.Keep(s, ws)[0] == s[0];
      }
    }
  }

  /** The first kept paragraph is not empty and starts with no space. */
  lemma KeptTrimmed(t: seq<string>, parts: seq<string>)
    requires forall k :: 0 <= k < |t| && t[k] != "" ==> !Text.IsJsSpace(t[k][0])
    requires parts == Text.Keep(t, IsEmptyText) && parts != []
    ensures parts[0] != "" && !Text.IsJsSpace(parts[0][0])
  {
    KeepEmpty(t, IsEmptyText);
  }

  /** The comment's text when it has one, else "". */
  function CommentText(e: Element): string {
    match ExtractContent(e.paragraphs)
    case None => ""
    case Some(c) => c
  }

  /** `comment.textContent` is not empty or blank. */
  predicate HasText(e: Element) {
    e.textContent != "" && Text.JsTrim(e.textContent) != ""
  }

  /** The element gets a line: it has text, and a comment text that is not
      empty or blank. */
  predicate Emits(e: Element) {
    HasText(e) && ExtractContent(e.paragraphs).Some?
    && ExtractContent(e.paragraphs).value != "" && Text.JsTrim(ExtractContent(e.paragraphs).value) != ""
  }

  /** An element gets a line exactly when it has text and one of its
      paragraphs is not blank. */
  lemma EmitsExactly(e: Element)
    ensures Emits(e) <==> (HasText(e) && e.paragraphs.Some?
                           && exists k :: 0 <= k < |e.paragraphs.value| && Text.JsTrim(e.paragraphs.value[k]) != "")
  {
    if e.paragraphs.Some? && e.paragraphs.value != [] {
      ContentBlank(e.paragraphs.value);
    }
  }

  /** The author column: the `author` attribute when it is not blank, else
      "deleted_" and a random number below 10000 when the text holds
      "[deleted]", else "Anonymous". */
  function AuthorOf(e: Element, draw: nat): (r: string)
    ensures r != ""
    ensures Text.JsTrim(e.author) != "" ==> r == e.author
    ensures Text.JsTrim(e.author) == "" && !Text.Contains(e.textContent, "[deleted]") ==> r == "Anonymous"
  {
    if e.author == "" || Text.JsTrim(e.author) == "" then
      if Text.Contains(e.textContent, "[deleted]") then "deleted_" + Text.NatToString(draw) else "Anonymous"
    else e.author
  }

  /** The created_date column: `formatDate` of the trimmed time text, or
      "N/A" without a time element. */
  function Created(e: Element, format: string -> string): string {
    match e.time
    case None => "N/A"
    case Some(t) => format(Text.JsTrim(t))
  }

  /** The number of elements with text among `es`: what `commentCounter`
      has counted. */
  function Counted(es: seq<Element>): (n: nat)
    ensures n <= |es|
    decreases |es|
  {
    if es == [] then 0 else Counted(es[..|es| - 1]) + (if HasText(es[|es| - 1]) then 1 else 0)
  }

  /** A line of the CSV: the element, its position on the page and the
      number in its id. */
  datatype Line = Line(e: Element, index: nat, number: nat)

  /** The lines of the elements `es`, in order: an element that gets a line
      takes the counter, which every element with text has moved on. */
  function Lines(es: seq<Element>): seq<Line>
    decreases |es|
  {
    if es == [] then []
    else
      var n := |es| - 1;
      Lines(es[..n]) + (if Emits(es[n]) then [Line(es[n], n, Counted(es[..n]) + 1)] else [])
  }

  lemma LinesNext(es: seq<Element>, i: nat)
    requires i < |es|
    ensures Lines(es[..i + 1]) == Lines(es[..i]) + (if Emits(es[i]) then [Line(es[i], i, Counted(es[..i]) + 1)] else [])
    ensures Counted(es[..i + 1]) == Counted(es[..i]) + (if HasText(es[i]) then 1 else 0)
  {
    assert es[..i + 1][..i] == es[..i];
  }

  const Header: seq<string> := ["post_id", "post_raw", "comment_id", "author", "created_date", "comment_raw"]

  /** `post_id + "_" + commentCounter`. */
  function CommentId(postId: string, number: nat): string {
    postId + "_" + Text.NatToString(number)
  }

  /** The six values of a line. `draws(i)` is the random number drawn for
      the element at position `i`. */
  function Fields(l: Line, postId: string, postRaw: string, format: string -> string, draws: nat -> nat): seq<string> {
    [postId, postRaw, CommentId(postId, l.number), AuthorOf(l.e, draws(l.index)), Created(l.e, format), CommentText(l.e)]
  }

  function Rows(lines: seq<Line>, postId: string, postRaw: string, format: string -> string, draws: nat -> nat): (r: seq<seq<string>>)
    ensures |r| == |lines| && forall k :: 0 <= k < |lines| ==> r[k] == Fields(lines[k], postId, postRaw, format, draws)
  {
    seq(|lines|, k requires 0 <= k < |lines| => Fields(lines[k], postId, postRaw, format, draws))
  }

  /** The text and counter once the first `i` elements are done. */
  predicate Written(es: seq<Element>, i: nat, postId: string, postRaw: string, format: string -> string, draws: nat -> nat,
                    csv: string, commentCounter: nat)
    requires i <= |es|
  {
    commentCounter == Counted(es[..i]) + 1
    && csv == Csv.Sheet(Header, Rows(Lines(es[..i]), postId, postRaw, format, draws))
  }

  /** The loop of `scrapeRedditComments` over the comment elements: the
      header line, then one line of six quoted values per element that gets
      one. */
  method BuildCsv(comments: seq<Element>, postId: string, postRaw: string, format: string -> string, draws: nat -> nat)
    returns (csv: string)
    ensures csv == Csv.Sheet(Header, Rows(Lines(comments), postId, postRaw, format, draws))
  {
    csv := Text.Join(Header, ",") + "\n";
    var commentCounter := 1;
    var i := 0;
    while i < |comments|
      invariant i <= |comments| && Written(comments, i, postId, postRaw, format, draws, csv, commentCounter)
    {
      csv, commentCounter := Emit(comments, i, postId, postRaw, format, draws, csv, commentCounter);
      i := i + 1;
    }
    assert comments[..i] == comments;
  }

  /** The body of the loop for the element at position `i`. */
  method Emit(comments: seq<Element>, i: nat, postId: string, postRaw: string, format: string -> string, draws: nat -> nat,
              csv: string, commentCounter: nat)
    returns (next: string, nextCounter: nat)
    requires i < |comments| && Written(comments, i, postId, postRaw, format, draws, csv, commentCounter)
    ensures Written(comments, i + 1, postId, postRaw, format, draws, next, nextCounter)
  {
    var comment := comments[i];
    if comment.textContent == "" || Text.JsTrim(comment.textContent) == "" {
      SkipStep(comments, i, postId, postRaw, format, draws, csv, commentCounter);
      return csv, commentCounter;
    }
    var comment_id := postId + "_" + Text.NatToString(commentCounter);
    nextCounter := commentCounter + 1;
    var author := comment.author;
    if author == "" || Text.JsTrim(author) == "" {
      if Text.Contains(comment.textContent, "[deleted]") {
        author := "deleted_" + Text.NatToString(draws(i));
      } else {
        author := "Anonymous";
      }
    }
    var created_date := "N/A";
    if comment.time.Some? {
      created_date := format(Text.JsTrim(comment.time.value));
    }
    var comment_raw := ExtractContent(comment.paragraphs);
    if comment_raw.None? || comment_raw.value == "" || Text.JsTrim(comment_raw.value) == "" {
      SkipStep(comments, i, postId, postRaw, format, draws, csv, commentCounter);
      return csv, nextCounter;
    }
    var cells := [Csv.Quote(postId), Csv.Quote(postRaw), Csv.Quote(comment_id),
                  Csv.Quote(author), Csv.Quote(created_date), Csv.Quote(comment_raw.value)];
    next := csv + (Text.Join(cells, ",") + "\n");
    EmitStep(comments, i, postId, postRaw, format, draws, csv, commentCounter, cells);
  }

  /** An element that gets no line leaves the text alone, and moves the
      counter on when it has text. */
  lemma SkipStep(es: seq<Element>, i: nat, postId: string, postRaw: string, format: string -> string, draws: nat -> nat,
                 csv: string, commentCounter: nat)
    requires i < |es| && !Emits(es[i]) && Written(es, i, postId, postRaw, format, draws, csv, commentCounter)
    ensures Written(es, i + 1, postId, postRaw, format, draws, csv, commentCounter + if HasText(es[i]) then 1 else 0)
  {
    LinesNext(es, i);
    assert Lines(es[..i + 1]) == Lines(es[..i]);
  }

  /** An element that gets a line adds it and moves the counter on. */
  lemma EmitStep(es: seq<Element>, i: nat, postId: string, postRaw: string, format: string -> string, draws: nat -> nat,
                 csv: string, commentCounter: nat, cells: seq<string>)
    requires i < |es| && Emits(es[i]) && Written(es, i, postId, postRaw, format, draws, csv, commentCounter)
    requires cells == [Csv.Quote(postId), Csv.Quote(postRaw), Csv.Quote(CommentId(postId, commentCounter)),
                       Csv.Quote(AuthorOf(es[i], draws(i))), Csv.Quote(Created(es[i], format)), Csv.Quote(CommentText(es[i]))]
    ensures Written(es, i + 1, postId, postRaw, format, draws, csv + (Text.Join(cells, ",") + "\n"), commentCounter + 1)
  {
    LinesNext(es, i);
    var l := Line(es[i], i, commentCounter);
    assert Lines(es[..i + 1]) == Lines(es[..i]) + [l];
    RowLine(Lines(es[..i]), l, postId, postRaw, format, draws, cells);
  }

  /** One more line adds its quoted cells. */
  lemma RowLine(lines: seq<Line>, l: Line, postId: string, postRaw: string, format: string -> string, draws: nat -> nat,
                cells: seq<string>)
    requires cells == [Csv.Quote(postId), Csv.Quote(postRaw), Csv.Quote(CommentId(postId, l.number)),
                       Csv.Quote(AuthorOf(l.e, draws(l.index))), Csv.Quote(Created(l.e, format)), Csv.Quote(CommentText(l.e))]
    ensures Csv.Sheet(Header, Rows(lines + [l], postId, postRaw, format, draws))
            == Csv.Sheet(Header, Rows(lines, postId, postRaw, format, draws)) + (Text.Join(cells, ",") + "\n")
  {
    var f := Fields(l, postId, postRaw, format, draws);
    Csv.QuoteSix(f, cells);
    var rows := Rows(lines, postId, postRaw, format, draws);
    RowsSnoc(lines, l, postId, postRaw, format, draws);
    Csv.SheetSnoc(Header, rows, f, cells);
  }

  lemma RowsSnoc(lines: seq<Line>, l: Line, postId: string, postRaw: string, format: string -> string, draws: nat -> nat)
    ensures Rows(lines + [l], postId, postRaw, format, draws)
            == Rows(lines, postId, postRaw, format, draws) + [Fields(l, postId, postRaw, format, draws)]
  {
    var a := Rows(lines + [l], postId, postRaw, format, draws);
    var b := Rows(lines, postId, postRaw, format, draws) + [Fields(l, postId, postRaw, format, draws)];
    forall k | 0 <= k < |a|
      ensures a[k] == b[k]
    {
      if k < |lines| {
        assert (lines + [l])[k] == lines[k];
      }
    }
  }

  /** Read back with `csv.reader` as printed, before the converter rewrites
      its line breaks, the text gives the header and then each line's six
      values. */
  lemma CsvReadsBack(lines: seq<Line>, postId: string, postRaw: string, format: string -> string, draws: nat -> nat)
    ensures Csv.ReadLines(Csv.Sheet(Header, Rows(lines, postId, postRaw, format, draws)))
            == Some([Header] + Rows(lines, postId, postRaw, format, draws))
  {
    assert forall i :: 0 <= i < |Header| ==> Csv.Plain(Header[i]);
    Csv.ReadSheet(Header, Rows(lines, postId, postRaw, format, draws));
  }

  // ---------------------------------------------------------------------
  // What the lines are

  /** Each line is the element at its position, that element gets a line,
      and its number is one more than the elements with text before it. */
  predicate LineOf(es: seq<Element>, l: Line) {
    l.index < |es| && l.e == es[l.index] && Emits(l.e) && l.number == Counted(es[..l.index]) + 1
  }

  lemma {:induction false} LinesFaithful(es: seq<Element>)
    ensures forall k :: 0 <= k < |Lines(es)| ==> LineOf(es, Lines(es)[k])
    decreases |es|
  {
    if es != [] {
      var n := |es| - 1;
      LinesFaithful(es[..n]);
      forall k | 0 <= k < |Lines(es[..n])| ensures LineOf(es, Lines(es[..n])[k]) {
        var l := Lines(es[..n])[k];
        assert es[..n][l.index] == es[l.index];
        assert es[..n][..l.index] == es[..l.index];
      }
    }
  }

  /** Every element that gets a line has one. */
  lemma {:induction false} LinesComplete(es: seq<Element>, i: nat)
    requires i < |es| && Emits(es[i])
    ensures exists k :: 0 <= k < |Lines(es)| && Lines(es)[k].index == i
    decreases |es|
  {
    var n := |es| - 1;
    if i < n {
      assert es[..n][i] == es[i];
      LinesComplete(es[..n], i);
      var k :| 0 <= k < |Lines(es[..n])| && Lines(es[..n])[k].index == i;
      assert Lines(es)[k] == Lines(es[..n])[k];
    } else {
      assert Lines(es)[|Lines(es)| - 1].index == i;
    }
  }

  /** More elements never count fewer, and an element with text counts. */
  lemma {:induction false} CountedGrows(es: seq<Element>, i: nat, j: nat)
    requires i < j <= |es| && HasText(es[i])
    ensures Counted(es[..i]) < Counted(es[..j])
    decreases j - i
  {
    LinesNext(es, j - 1);
    if i < j - 1 {
      CountedGrows(es, i, j - 1);
    }
  }

  /** Later lines come from later elements and carry larger numbers, so
      the ids are distinct; the numbers stay within the elements with
      text. */
  lemma LinesOrdered(es: seq<Element>, a: nat, b: nat)
    requires a < b < |Lines(es)|
    ensures Lines(es)[a].index < Lines(es)[b].index
    ensures Lines(es)[a].number < Lines(es)[b].number <= Counted(es)
  {
    LinesIncreasing(es);
    LinesFaithful(es);
    var la, lb := Lines(es)[a], Lines(es)[b];
    assert LineOf(es, la) && LineOf(es, lb);
    CountedGrows(es, la.index, lb.index);
    CountedGrows(es, lb.index, |es|);
    assert es[..|es|] == es;
  }

  lemma {:induction false} LinesIncreasing(es: seq<Element>)
    ensures forall a, b :: 0 <= a < b < |Lines(es)| ==> Lines(es)[a].index < Lines(es)[b].index
    ensures forall a :: 0 <= a < |Lines(es)| ==> Lines(es)[a].index < |es|
    decreases |es|
  {
    if es != [] {
      var n := |es| - 1;
      LinesIncreasing(es[..n]);
    }
  }

  /** Different numbers give different ids. */
  lemma IdsDistinct(postId: string, m: nat, n: nat)
    requires CommentId(postId, m) == CommentId(postId, n)
    ensures m == n
  {
    var k := |postId| + 1;
    assert CommentId(postId, m)[k..] == Text.NatToString(m);
    assert CommentId(postId, n)[k..] == Text.NatToString(n);
    Text.NatToStringInjective(m, n);
  }

  /** An element with text but no comment text uses up a number: a page of
      such an element and then an ordinary comment gives the single line
      numbered 2. */
  lemma NumbersSkip(a: Element, b: Element)
    requires HasText(a) && a.paragraphs.None?
    requires Emits(b)
    ensures Lines([a, b]) == [Line(b, 1, 2)]
  {
    var es := [a, b];
    assert es[..1] == [a] && es[..1][..0] == [];
    assert Lines(es[..1]) == [];
    assert Counted(es[..1]) == 1;
  }
}
