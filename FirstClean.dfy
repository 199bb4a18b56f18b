/** The first-clean script's filters: comments longer than a word limit are
    dropped, comments of three meaningful words or fewer are dropped unless
    they hold a special pattern, and posts with more comments than a limit
    are cut down, keeping keyword comments first. The thresholds and the
    strategy come from what the user types; the random sampling itself (which
    rows survive a cut) and the workbook I/O are left to the caller, so
    the balancing step is modelled through the counts it produces. */
module FirstClean {
  import opened Wrappers
  import Text
  import Frames
  import Cleaning
  import MergeDataset

  type Cell = MergeDataset.Cell

  // ---------------------------------------------------------------------
  // count_words

  /** The character class `[a-zA-ZÀ-ỹ0-9]`. */
  predicate IsWordChar(c: char) {
    ('a' <= c <= 'z') || ('A' <= c <= 'Z') || ('\U{00C0}' <= c <= '\U{1EF9}') || ('0' <= c <= '9')
  }

  /** `re.search(r'[a-zA-ZÀ-ỹ0-9]', word)` finds something. */
  predicate HasWordChar(w: string) {
    exists k :: 0 <= k < |w| && IsWordChar(w[k])
  }

  /** The words holding at least one letter or digit, in order. */
  function Meaningful(words: seq<string>): (r: seq<string>)
    ensures |r| <= |words|
  {
    if words == [] then [] else (if HasWordChar(words[0]) then [words[0]] else []) + Meaningful(words[1..])
  }

  /** `count_words`: the number of meaningful whitespace-separated words; 0 for
      anything but a string. */
  function WordCount(c: Cell): (n: nat)
    ensures c.Str? ==> n <= |Text.Words(Text.PyStrip(c.s))|
    ensures !c.Str? ==> n == 0
  {
    if c.Str? then |Meaningful(Text.Words(Text.PyStrip(c.s)))| else 0
  }

  lemma {:induction false} MeaningfulAppend(a: seq<string>, b: seq<string>)
    ensures Meaningful(a + b) == Meaningful(a) + Meaningful(b)
  {
    if a == [] {
      assert a + b == b;
    } else {
      var c := a + b;
      assert c[1..] == a[1..] + b;
      MeaningfulAppend(a[1..], b);
      assert Meaningful(c) == (if HasWordChar(a[0]) then [a[0]] else []) + Meaningful(a[1..] + b);
    }
  }

  /** The loop of `count_words`. */
  method CountWords(c: Cell) returns (n: nat)
    ensures n == WordCount(c)
  {
    if !c.Str? {
      return 0;
    }
    var words := Text.Words(Text.PyStrip(c.s));
    var meaningful: seq<string> := [];
    var j := 0;
    while j < |words|
      invariant j <= |words|
      invariant meaningful == Meaningful(words[..j])
    {
      var word := words[j];
      MeaningfulAppend(words[..j], [word]);
      assert words[..j + 1] == words[..j] + [word];
      assert [word][1..] == [];
      if HasWordChar(word) {
        meaningful := meaningful + [word];
      }
      j := j + 1;
    }
    assert words[..j] == words;
    n := |meaningful|;
  }

  lemma HasWordCharAppend(a: string, b: string)
    ensures HasWordChar(a + b) <==> HasWordChar(a) || HasWordChar(b)
  {
    if HasWordChar(a + b) {
      var k :| 0 <= k < |a + b| && IsWordChar((a + b)[k]);
      if k >= |a| {
        assert b[k - |a|] == (a + b)[k];
      } else {
        assert a[k] == (a + b)[k];
      }
    }
    if HasWordChar(a) {
      var k :| 0 <= k < |a| && IsWordChar(a[k]);
      assert (a + b)[k] == a[k];
    }
    if HasWordChar(b) {
      var k :| 0 <= k < |b| && IsWordChar(b[k]);
      assert (a + b)[|a| + k] == b[k];
    }
  }

  lemma {:induction false} MeaningfulNone(words: seq<string>)
    ensures Meaningful(words) == [] <==> !HasWordChar(Text.Concat(words))
  {
    if words != [] {
      MeaningfulNone(words[1..]);
      HasWordCharAppend(words[0], Text.Concat(words[1..]));
    }
  }

  lemma {:induction false} KeepWordChar(s: string)
    ensures HasWordChar(Text.Keep(s, Text.IsPySpace))
            <==> exists k :: 0 <= k < |s| && !Text.IsPySpace(s[k]) && IsWordChar(s[k])
  {
    if s != [] {
      KeepWordChar(s[1..]);
      var head := if Text.IsPySpace(s[0]) then [] else [s[0]];
      HasWordCharAppend(head, Text.Keep(s[1..], Text.IsPySpace));
      if exists k :: 0 <= k < |s| && !Text.IsPySpace(s[k]) && IsWordChar(s[k]) {
        var k :| 0 <= k < |s| && !Text.IsPySpace(s[k]) && IsWordChar(s[k]);
        if k > 0 {
          assert s[1..][k - 1] == s[k];
        } else {
          assert head[0] == s[0];
        }
      }
      if exists k :: 0 <= k < |s[1..]| && !Text.IsPySpace(s[1..][k]) && IsWordChar(s[1..][k]) {
        var k :| 0 <= k < |s[1..]| && !Text.IsPySpace(s[1..][k]) && IsWordChar(s[1..][k]);
        assert s[k + 1] == s[1..][k];
      }
    }
  }

  /** A string counts no word exactly when none of its non-whitespace
      characters is a letter or digit of the class. */
  lemma WordCountZero(s: string)
    ensures WordCount(MergeDataset.Str(s)) == 0
            <==> forall k :: 0 <= k < |s| && !Text.IsPySpace(s[k]) ==> !IsWordChar(s[k])
  {
    var t := Text.PyStrip(s);
    MeaningfulNone(Text.Words(t));
    Text.WordsCoverText(t, Text.IsPySpace);
    Cleaning.StripKeeps(s);
    KeepWordChar(s);
  }

  // ---------------------------------------------------------------------
  // get_removal_reason and is_special_pattern

  /** `get_removal_reason`. */
  function RemovalReason(c: Cell): (r: string)
    ensures r == "Other reason" <==> c.Str? && WordCount(c) > 3
  {
    if !c.Str? then "Empty or invalid comment"
    else
      var n := WordCount(c);
      if n == 0 then "Empty comment after cleaning"
      else if n == 1 then "Single word comment"
      else if n == 2 then "Two words comment"
      else if n == 3 then "Three words comment"
      else "Other reason"
  }

  const SpecialPatterns: seq<string> :=
    ["///", "3/", "3///", "3//", "3|||", "\\\\", "\\|/",
     "cs", "csvn", "dcsvn", "xhcn", "dcs", "vc", "vnch", "vndcch",
     "redbull", "bò đỏ", "ba que", "ba sọc", "việt cộng", "vn cộng",
     "phản động", "đảng trị", "barwhere", "cộng sản", "cộng phỉ",
     "tàu cộng", "tàu khựa", "bọn chệt"]

  /** `is_special_pattern`: the lowercased, stripped string contains one of the patterns. */
  predicate IsSpecialPattern(c: Cell) {
    c.Str? && exists i :: 0 <= i < |SpecialPatterns| && Text.Contains(Text.PyStrip(Text.Lower(c.s)), SpecialPatterns[i])
  }

  // ---------------------------------------------------------------------
  // The short-comment filter

  /** The condition a cleaned comment must meet to stay. */
  predicate KeepsShort(c: Cell) {
    c.Str? && (WordCount(c) > 3 || IsSpecialPattern(c))
  }

  /** The loop building `keep_indices` and `removed_indices`: they share out
      the rows between them by the condition, each in order. */
  method ShortFilter(comments: seq<Cell>) returns (keep: seq<nat>, removed: seq<nat>)
    ensures Sorted(comments, |comments|, keep, removed)
  {
    keep, removed := [], [];
    var idx := 0;
    while idx < |comments|
      invariant idx <= |comments| && Sorted(comments, idx, keep, removed)
    {
      keep, removed := SortRow(comments, idx, keep, removed);
      idx := idx + 1;
    }
  }

  /** After the first `idx` rows: `keep` holds the positions of the rows that
      stay and `removed` those of the rows that go, each in order. */
  predicate Sorted(comments: seq<Cell>, idx: nat, keep: seq<nat>, removed: seq<nat>)
    requires idx <= |comments|
  {
    keep == Frames.Where(comments, KeepsShort, idx)
    && removed == Frames.Where(comments, Frames.Not(KeepsShort), idx)
  }

  /** The loop body: the row at `idx` joins the kept or the removed rows. */
  method SortRow(comments: seq<Cell>, idx: nat, keep0: seq<nat>, removed0: seq<nat>)
    returns (keep: seq<nat>, removed: seq<nat>)
    requires idx < |comments| && Sorted(comments, idx, keep0, removed0)
    ensures Sorted(comments, idx + 1, keep, removed)
  {
    var stays := Stays(comments[idx]);
    keep, removed := keep0, removed0;
    if stays {
      keep := keep + [idx];
    } else {
      removed := removed + [idx];
    }
    ShortStep(comments, idx, stays, keep0, removed0, keep, removed);
  }

  /** One more row sorted into kept or removed. */
  lemma ShortStep(comments: seq<Cell>, idx: nat, stays: bool, keep0: seq<nat>, removed0: seq<nat>,
                  keep: seq<nat>, removed: seq<nat>)
    requires idx < |comments| && stays == KeepsShort(comments[idx])
    requires keep0 == Frames.Where(comments, KeepsShort, idx)
    requires removed0 == Frames.Where(comments, Frames.Not(KeepsShort), idx)
    requires keep == if stays then keep0 + [idx] else keep0
    requires removed == if stays then removed0 else removed0 + [idx]
    ensures keep == Frames.Where(comments, KeepsShort, idx + 1)
    ensures removed == Frames.Where(comments, Frames.Not(KeepsShort), idx + 1)
  {
    Frames.WhereStep(comments, KeepsShort, idx);
    Frames.WhereStep(comments, Frames.Not(KeepsShort), idx);
    assert Frames.Not(KeepsShort)(comments[idx]) == !stays;
  }

  /** The test in the loop body: a string whose word count is above 3 or that
      holds a special pattern. */
  method Stays(comment: Cell) returns (stays: bool)
    ensures stays == KeepsShort(comment)
  {
    stays := false;
    if comment.Str? {
      var wordCount := CountWords(comment);
      stays := wordCount > 3 || IsSpecialPattern(comment);
    }
  }

  /** The rows the short filter keeps are exactly the strings with more than
      three meaningful words or a special pattern, in order; every other row is
      removed, in order, and is given one of the five specific reasons (it is
      not a string, or it has at most three meaningful words). */
  lemma {:induction false} SortedFacts(comments: seq<Cell>, keep: seq<nat>, removed: seq<nat>)
    requires Sorted(comments, |comments|, keep, removed)
    ensures Frames.Increasing(keep) && Frames.Increasing(removed)
    ensures forall p: nat :: p in keep <==> p < |comments| && KeepsShort(comments[p])
    ensures forall p: nat :: p in removed <==> p < |comments| && !KeepsShort(comments[p])
    ensures forall p: nat :: p in removed ==> RemovalReason(comments[p]) != "Other reason"
    ensures |keep| + |removed| == |comments|
  {
    Frames.WhereFacts(comments, KeepsShort, |comments|);
    Frames.WhereFacts(comments, Frames.Not(KeepsShort), |comments|);
    Frames.WherePartition(comments, KeepsShort, |comments|);
    assert forall p: nat :: p < |comments| ==> (Frames.Not(KeepsShort)(comments[p]) <==> !KeepsShort(comments[p]));
  }

  // ---------------------------------------------------------------------
  // filter_long_comments

  /** The rows a filter keeps and the rows it removes. */
  datatype Split = Split(kept: seq<nat>, removed: seq<nat>)

  /** `word_count <= max_words`, the rows `df[~long_comments_mask]` keeps. */
  function Within(maxWords: int): Cell -> bool {
    c => WordCount(c) <= maxWords
  }

  /** `filter_long_comments` on `rows` rows and their comment column (None when
      the sheet has none, and then nothing is removed). */
  function FilterLong(comments: Option<seq<Cell>>, rows: nat, maxWords: int): (r: Split)
    requires comments.Some? ==> |comments.value| == rows
    ensures Frames.Increasing(r.kept) && Frames.Increasing(r.removed)
    ensures forall p: nat :: p in r.kept <==> p < rows && (comments.Some? ==> WordCount(comments.value[p]) <= maxWords)
    ensures forall p: nat :: p in r.removed <==> p < rows && comments.Some? && WordCount(comments.value[p]) > maxWords
    ensures |r.kept| + |r.removed| == rows
  {
    match comments
    case None =>
      Split(Frames.Indices(rows), [])
    case Some(col) =>
      Frames.WherePartition(col, Within(maxWords), rows);
      Frames.WhereFacts(col, Within(maxWords), rows);
      Frames.WhereFacts(col, Frames.Not(Within(maxWords)), rows);
      assert forall p: nat :: p < rows ==> (Within(maxWords)(col[p]) <==> WordCount(col[p]) <= maxWords);
      Split(Frames.Where(col, Within(maxWords), rows), Frames.Where(col, Frames.Not(Within(maxWords)), rows))
  }

  // ---------------------------------------------------------------------
  // Thresholds and strategy typed by the user

  const SkipWords: seq<string> := ["", "skip", "bỏ qua"]

  /** The word or comment limit read from `typed` (after `strip()`): None when
      the step is skipped (a skip word, or text `int` rejects), else the
      number, raised to `floor`. */
  function Threshold(typed: string, default: int, floor: int): (r: Option<int>)
    ensures r.Some? ==> r.value >= floor
  {
    var t := Text.PyStrip(typed);
    if Text.Lower(t) in SkipWords then None
    else
      var v := if t != "" then Text.PyInt(t) else Some(default);
      match v
      case None => None
      case Some(n) => Some(if n < floor then floor else n)
  }

  /** Typing a number uses that number, or the floor when it is below it. */
  lemma ThresholdOfNumber(n: nat, default: int, floor: int)
    ensures Threshold(Text.NatToString(n), default, floor) == Some(if n < floor then floor else n)
  {
    Text.PyIntOfNat(n);
    ThresholdOfDigits(Text.NatToString(n), n, default, floor);
  }

  /** A text that begins and ends with a digit and that `int` reads as `v`. */
  lemma ThresholdOfDigits(t: string, v: int, default: int, floor: int)
    requires t != [] && Text.IsAsciiDigit(t[0]) && Text.IsAsciiDigit(t[|t| - 1])
    requires Text.PyInt(t) == Some(v)
    ensures Threshold(t, default, floor) == Some(if v < floor then floor else v)
  {
    Text.StripByUnchanged(t, Text.IsPySpace);
    NotSkipWord(t);
  }

  /** A text starting with a digit is no skip word. */
  lemma NotSkipWord(t: string)
    requires t != [] && Text.IsAsciiDigit(t[0])
    ensures Text.Lower(t) !in SkipWords
  {
    var l := Text.Lower(t);
    assert Text.IsAsciiDigit(l[0]);
    assert l != "skip" by { assert "skip"[0] == 's'; }
    assert l != "bỏ qua" by { assert "bỏ qua"[0] == 'b'; }
  }

  /** The cap on keyword comments per post: only strategy "2" with a number
      typed sets one, raised to at least 1; any other answer keeps them all. */
  function PriorityCap(choice: string, typed: string): (r: Option<nat>)
    ensures r.Some? ==> r.value >= 1 && Text.PyStrip(choice) == "2"
  {
    if Text.PyStrip(choice) == "2" then
      match Text.PyInt(Text.PyStrip(typed))
      case None => None
      case Some(v) => Some(if v < 1 then 1 else v)
    else None
  }

  // ---------------------------------------------------------------------
  // balance_comments_advanced

  const PreserveKeywords: seq<string> :=
    ["phản động", "phản quốc", "phản bội", "đảng cướp",
     "ba que", "việt cộng", "bò đỏ", "tàu cộng", "đồ đĩ",
     "cộng sản", "cộng phỉ", "xứ vẹm", "barwhere",
     "độc tài", "đàn áp", "nhân quyền",
     "xhcn", "dcs", "dcsvn", "vnch", "Hồ Tặc", "hochochet", "redbull",
     "vndcch", "cs", "csvn", "vn", "bọn chệt", "tàu khựa", "v+", "+san"]

  /** A priority comment contains a preserve keyword, ignoring case (the
      keywords are escaped, so `v+` and `+san` are literal). */
  predicate IsPriority(text: string) {
    exists i :: 0 <= i < |PreserveKeywords| && Text.Contains(Text.Lower(text), Text.Lower(PreserveKeywords[i]))
  }

  function PriorityCount(post: seq<string>): (n: nat)
    ensures n <= |post|
  {
    Frames.WherePartition(post, IsPriority, |post|);
    |Frames.Where(post, IsPriority, |post|)|
  }

  /** How many keyword comments a post over the limit keeps. */
  function PriorityKept(priority: nat, cap: Option<nat>): (k: nat)
    ensures k <= priority
    ensures cap.None? || cap.value == 0 ==> k == priority
    ensures cap.Some? && cap.value > 0 ==> k == (if priority < cap.value then priority else cap.value)
  {
    if cap.Some? && cap.value > 0 && priority > cap.value then cap.value else priority
  }

  function Min(a: int, b: int): int { if a < b then a else b }

  function Max(a: int, b: int): int { if a < b then b else a }

  /** The number of comments a post of `count` comments, `priority` of them
      with keywords, keeps. */
  function PostKept(count: nat, priority: nat, cap: Option<nat>, limit: int): (kept: nat)
    requires priority <= count
    ensures kept <= count
    ensures count <= limit ==> kept == count
    ensures count > limit ==>
              kept == PriorityKept(priority, cap) + Min(count - priority, Max(0, limit - PriorityKept(priority, cap)))
    ensures count > limit ==> kept == Max(PriorityKept(priority, cap), Min(limit, PriorityKept(priority, cap) + count - priority))
    ensures kept >= PriorityKept(priority, cap)
  {
    if count <= limit then count
    else
      var keepPriority := PriorityKept(priority, cap);
      var normal := count - priority;
      var remaining := limit - keepPriority;
      if remaining <= 0 then keepPriority
      else if remaining >= normal then keepPriority + normal
      else keepPriority + remaining
  }

  /** Without a cap every keyword comment survives, even past the limit. */
  lemma KeywordsSurvive(count: nat, priority: nat, limit: int)
    requires priority <= count
    ensures PostKept(count, priority, None, limit) >= priority
  {
  }

  function Sum(s: seq<nat>): nat {
    if s == [] then 0 else Sum(s[..|s| - 1]) + s[|s| - 1]
  }

  /** The number of comments in all posts. */
  function Total(posts: seq<seq<string>>): nat {
    if posts == [] then 0 else Total(posts[..|posts| - 1]) + |posts[|posts| - 1]|
  }

  /** The number of posts over the limit. */
  function OverLimit(posts: seq<seq<string>>, limit: int): nat {
    if posts == [] then 0 else OverLimit(posts[..|posts| - 1], limit) + (if |posts[|posts| - 1]| > limit then 1 else 0)
  }

  /** What each post keeps. */
  function KeptCounts(posts: seq<seq<string>>, cap: Option<nat>, limit: int): (r: seq<nat>)
    ensures |r| == |posts|
    ensures forall g :: 0 <= g < |posts| ==> r[g] == PostKept(|posts[g]|, PriorityCount(posts[g]), cap, limit)
  {
    seq(|posts|, g requires 0 <= g < |posts| => PostKept(|posts[g]|, PriorityCount(posts[g]), cap, limit))
  }

  /** The balancing of one more post, as the loop records it. */
  lemma BalanceStep(posts: seq<seq<string>>, cap: Option<nat>, limit: int, g: nat)
    requires g < |posts|
    ensures KeptCounts(posts[..g + 1], cap, limit) == KeptCounts(posts[..g], cap, limit) + [KeptCounts(posts, cap, limit)[g]]
    ensures Sum(KeptCounts(posts[..g + 1], cap, limit)) == Sum(KeptCounts(posts[..g], cap, limit)) + KeptCounts(posts, cap, limit)[g]
    ensures Total(posts[..g + 1]) == Total(posts[..g]) + |posts[g]|
    ensures OverLimit(posts[..g + 1], limit) == OverLimit(posts[..g], limit) + (if |posts[g]| > limit then 1 else 0)
  {
    var next := KeptCounts(posts[..g + 1], cap, limit);
    assert posts[..g + 1][..g] == posts[..g];
    assert next[..g] == KeptCounts(posts[..g], cap, limit);
    assert next == next[..g] + [next[g]];
  }

  /** The loop over the post groups: each post keeps what `PostKept` says, the
      kept and removed comments add up to all of them, and every post is either
      processed (over the limit) or left untouched. */
  method BalancePosts(posts: seq<seq<string>>, cap: Option<nat>, limit: int)
    returns (kept: seq<nat>, totalRemoved: nat, processed: nat, untouched: nat)
    ensures kept == KeptCounts(posts, cap, limit)
    ensures Sum(kept) + totalRemoved == Total(posts)
    ensures processed == OverLimit(posts, limit) && processed + untouched == |posts|
  {
    kept, totalRemoved, processed, untouched := [], 0, 0, 0;
    var g := 0;
    while g < |posts|
      invariant g <= |posts|
      invariant kept == KeptCounts(posts[..g], cap, limit)
      invariant Sum(kept) + totalRemoved == Total(posts[..g])
      invariant processed == OverLimit(posts[..g], limit) && processed + untouched == g
    {
      var post := posts[g];
      var count := |post|;
      BalanceStep(posts, cap, limit, g);
      if count <= limit {
        kept := kept + [count];
        untouched := untouched + 1;
      } else {
        processed := processed + 1;
        var n := PostKept(count, PriorityCount(post), cap, limit);
        kept := kept + [n];
        totalRemoved := totalRemoved + (count - n);
      }
      g := g + 1;
    }
    assert posts[..g] == posts;
  }
}
