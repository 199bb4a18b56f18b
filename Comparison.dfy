/** The comparison text both summarisers write next to their spreadsheet, and
    that the merge step reads back: a header, then one ten-line block per post
    in batch order, the lines joined by "\n". */
module Comparison {
  import opened Wrappers
  import Text
  import Frames

  /** The 80-character rule that closes every block (and frames the header). */
  const Rule: string := Text.Repeat('=', 80)

  /** The 50-character rule under a block's title. */
  const Dashes: string := Text.Repeat('-', 50)

  /** The block of post number `n`: its title, the original text and the summary. */
  function BlockLines(n: nat, post: string, summary: string): (r: seq<string>)
    ensures |r| == 10
    ensures r[0] == "POST " + Text.NatToString(n) + ":" && r[3] == post && r[6] == summary
  {
    ["POST " + Text.NatToString(n) + ":", Dashes, "ORIGINAL:", post, "", "SUMMARY:", summary, "", Rule, ""]
  }

  /** The blocks `block` lays out for `posts`, numbered from `first`, in order. */
  function Listing(first: nat, posts: seq<string>, shown: seq<string>, block: (nat, string, string) -> seq<string>): seq<string>
    requires |shown| == |posts|
    decreases |posts|
  {
    if posts == [] then [] else block(first, posts[0], shown[0]) + Listing(first + 1, posts[1..], shown[1..], block)
  }

  /** Listing two runs of posts one after the other is listing them together. */
  lemma {:induction false} ListingAppend(first: nat, a: seq<string>, sa: seq<string>, b: seq<string>, sb: seq<string>,
                                         block: (nat, string, string) -> seq<string>)
    requires |sa| == |a| && |sb| == |b|
    ensures Listing(first, a, sa, block) + Listing(first + |a|, b, sb, block) == Listing(first, a + b, sa + sb, block)
    decreases |a|
  {
    if a == [] {
      assert a + b == b && sa + sb == sb;
    } else {
      ListingAppend(first + 1, a[1..], sa[1..], b, sb, block);
      assert (a + b)[1..] == a[1..] + b && (sa + sb)[1..] == sa[1..] + sb;
      assert (a + b)[0] == a[0] && (sa + sb)[0] == sa[0];
    }
  }

  /** The blocks of `posts` numbered from `first` in order, each with the text shown for it. */
  function Blocks(first: nat, posts: seq<string>, shown: seq<string>): seq<string>
    requires |shown| == |posts|
  {
    Listing(first, posts, shown, BlockLines)
  }

  /** The blocks of two runs of posts one after the other are the blocks of both. */
  lemma BlocksAppend(first: nat, a: seq<string>, sa: seq<string>, b: seq<string>, sb: seq<string>)
    requires |sa| == |a| && |sb| == |b|
    ensures Blocks(first, a, sa) + Blocks(first + |a|, b, sb) == Blocks(first, a + b, sa + sb)
  {
    ListingAppend(first, a, sa, b, sb, BlockLines);
  }

  /** The blocks of the first `j + 1` posts: those of the first `j`, then post `j`'s. */
  lemma BlocksSnoc(first: nat, posts: seq<string>, shown: seq<string>, j: nat)
    requires |shown| == |posts| && j < |posts|
    ensures Blocks(first, posts[..j + 1], shown[..j + 1])
            == Blocks(first, posts[..j], shown[..j]) + BlockLines(first + j, posts[j], shown[j])
  {
    BlocksAppend(first, posts[..j], shown[..j], [posts[j]], [shown[j]]);
    assert posts[..j] + [posts[j]] == posts[..j + 1] && shown[..j] + [shown[j]] == shown[..j + 1];
    var one, shownOne := [posts[j]], [shown[j]];
    assert one[1..] == [] && shownOne[1..] == [];
    assert Listing(first + j, one, shownOne, BlockLines) == BlockLines(first + j, posts[j], shown[j]) + [];
  }

  /** `summaries.get(post)`. */
  function Lookup<V>(summaries: map<string, V>, post: string): (r: Option<V>)
    ensures r.Some? <==> post in summaries
    ensures r.Some? ==> r.value == summaries[post]
  {
    if post in summaries then Some(summaries[post]) else None
  }

  /** What the text shows for each post: `show` of the post's entry in `summaries`. */
  function Shown<V>(posts: seq<string>, summaries: map<string, V>, show: Option<V> -> string): (r: seq<string>)
    ensures |r| == |posts|
  {
    seq(|posts|, i requires 0 <= i < |posts| => show(Lookup(summaries, posts[i])))
  }

  /** What is shown for the post at `j`. */
  lemma ShownAt<V>(posts: seq<string>, summaries: map<string, V>, show: Option<V> -> string, j: nat)
    requires j < |posts|
    ensures Shown(posts, summaries, show)[j] == show(Lookup(summaries, posts[j]))
  {
  }

  /** The blocks written for one batch, numbered from `first`, each post with
      what the batch's own summaries hold for it. */
  method ListBatch<V>(first: nat, batch: seq<string>, results: map<string, V>, show: Option<V> -> string)
    returns (lines: seq<string>)
    ensures lines == Blocks(first, batch, Shown(batch, results, show))
  {
    ghost var shown := Shown(batch, results, show);
    lines := [];
    var j := 0;
    while j < |batch|
      invariant j <= |batch|
      invariant lines == Blocks(first, batch[..j], shown[..j])
    {
      var post := batch[j];
      var summaryText := show(Lookup(results, post));
      BlocksSnoc(first, batch, shown, j);
      lines := lines + BlockLines(first + j, post, summaryText);
      j := j + 1;
    }
    assert batch[..j] == batch && shown[..j] == shown;
  }

  /** Summaries for other posts do not change what is shown for these. */
  lemma ShownIgnores<V>(posts: seq<string>, base: map<string, V>, extra: map<string, V>, show: Option<V> -> string)
    requires forall k :: k in extra ==> k !in posts
    ensures Shown(posts, base, show) == Shown(posts, base + extra, show)
  {
    forall i | 0 <= i < |posts| ensures Lookup(base, posts[i]) == Lookup(base + extra, posts[i]) {
      assert posts[i] !in extra;
    }
  }

  /** Summaries merged over others for other posts are shown as they are. */
  lemma ShownOverrides<V>(posts: seq<string>, base: map<string, V>, results: map<string, V>, show: Option<V> -> string)
    requires forall k :: k in base ==> k !in posts
    ensures Shown(posts, results, show) == Shown(posts, base + results, show)
  {
    forall i | 0 <= i < |posts| ensures Lookup(results, posts[i]) == Lookup(base + results, posts[i]) {
      assert posts[i] !in base;
    }
  }

  /** Listing the posts so far with the summaries so far, then the next batch
      with its own, is listing both with the merged summaries: the batch's
      summaries are about its own posts only, and the posts are distinct. */
  lemma MergeListing<V>(posts: seq<string>, done: nat, end: nat, all: map<string, V>, results: map<string, V>,
                        show: Option<V> -> string)
    requires done <= end <= |posts| && Frames.Distinct(posts)
    requires forall k :: k in all ==> k in posts[..done]
    requires forall k :: k in results ==> k in posts[done..end]
    ensures Blocks(1, posts[..done], Shown(posts[..done], all, show))
            + Blocks(done + 1, posts[done..end], Shown(posts[done..end], results, show))
            == Blocks(1, posts[..end], Shown(posts[..end], all + results, show))
  {
    var merged := all + results;
    var before, batch := posts[..done], posts[done..end];
    var shownBefore, shownBatch := Shown(before, merged, show), Shown(batch, merged, show);
    calc {
      Blocks(1, before, Shown(before, all, show)) + Blocks(done + 1, batch, Shown(batch, results, show));
      { Disjoint(posts, done, end);
        ShownIgnores(before, all, results, show);
        ShownOverrides(batch, all, results, show); }
      Blocks(1, before, shownBefore) + Blocks(1 + |before|, batch, shownBatch);
      { BlocksAppend(1, before, shownBefore, batch, shownBatch); }
      Blocks(1, before + batch, shownBefore + shownBatch);
      { assert posts[..end] == before + batch;
        ShownAppend(before, batch, merged, show); }
      Blocks(1, posts[..end], Shown(posts[..end], merged, show));
    }
  }

  /** The text so far followed by the next batch's blocks is the text of
      the posts up to the batch's end, with the merged summaries. */
  lemma ExtendText<V>(posts: seq<string>, header: seq<string>, done: nat, end: nat, all: map<string, V>,
                      results: map<string, V>, txt: seq<string>, lines: seq<string>, show: Option<V> -> string)
    requires done <= end <= |posts| && Frames.Distinct(posts)
    requires forall k :: k in all ==> k in posts[..done]
    requires forall k :: k in results ==> k in posts[done..end]
    requires txt == header + Blocks(1, posts[..done], Shown(posts[..done], all, show))
    requires lines == Blocks(done + 1, posts[done..end], Shown(posts[done..end], results, show))
    ensures txt + lines == header + Blocks(1, posts[..end], Shown(posts[..end], all + results, show))
  {
    MergeListing(posts, done, end, all, results, show);
    Regroup(header, Blocks(1, posts[..done], Shown(posts[..done], all, show)), lines);
  }

  /** The merged summaries are about the posts so far and the batch's. */
  lemma MergeKeys<V>(posts: seq<string>, done: nat, end: nat, all: map<string, V>, results: map<string, V>)
    requires done <= end <= |posts|
    requires forall k :: k in all ==> k in posts[..done]
    requires forall k :: k in results ==> k in posts[done..end]
    ensures forall k :: k in all + results ==> k in posts[..end]
  {
    forall k | k in all + results
      ensures k in posts[..end]
    {
      if k in results {
        var i :| 0 <= i < end - done && posts[done..end][i] == k;
        assert posts[..end][done + i] == k;
      } else {
        var i :| 0 <= i < done && posts[..done][i] == k;
        assert posts[..end][i] == k;
      }
    }
  }

  /** Distinct posts: none before `done` is among those from `done` to `end`. */
  lemma Disjoint(posts: seq<string>, done: nat, end: nat)
    requires done <= end <= |posts| && Frames.Distinct(posts)
    ensures forall k :: k in posts[..done] ==> k !in posts[done..end]
  {
    forall k | k in posts[..done] ensures k !in posts[done..end] {
      var i :| 0 <= i < done && posts[..done][i] == k;
      assert forall j :: 0 <= j < end - done ==> posts[done..end][j] == posts[done + j];
    }
  }

  /** What is shown for two runs of posts is what is shown for each. */
  lemma ShownAppend<V>(a: seq<string>, b: seq<string>, summaries: map<string, V>, show: Option<V> -> string)
    ensures Shown(a + b, summaries, show) == Shown(a, summaries, show) + Shown(b, summaries, show)
  {
  }

  lemma Regroup(a: seq<string>, b: seq<string>, c: seq<string>)
    ensures (a + b) + c == a + (b + c)
  {
  }
}
