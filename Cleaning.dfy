/** The text cleaning both first-clean scripts apply to every comment:
    `remove_vn_emoticons`, which deletes Vietnamese-style emoticons with ten
    fixed patterns, and the tail of `minimal_clean`, which squeezes every
    whitespace run to one space, strips and lowercases. The regular-expression
    rewrites before and after the emoticon step (Unicode normalisation, URLs,
    HTML tags, mentions, emoji, edit markers, lone punctuation) are parameters. */
module Cleaning {
  import Text
  import MergeDataset

  // ---------------------------------------------------------------------
  // Subsequences

  /** `a` can be obtained from `b` by deleting elements. */
  predicate Subsequence<T(==)>(a: seq<T>, b: seq<T>)
    decreases |b|
  {
    if a == [] then true
    else if b == [] then false
    else if a[0] == b[0] then Subsequence(a[1..], b[1..])
    else Subsequence(a, b[1..])
  }

  lemma {:induction false} SubsequenceRefl<T>(a: seq<T>)
    ensures Subsequence(a, a)
    decreases |a|
  {
    if a != [] { SubsequenceRefl(a[1..]); }
  }

  /** A subsequence of a suffix is a subsequence of the whole. */
  lemma {:induction false} SubsequenceExtend<T>(a: seq<T>, c: seq<T>)
    requires c != [] && Subsequence(a, c[1..])
    ensures Subsequence(a, c)
    decreases |a| + |c|
  {
    if a != [] && a[0] == c[0] {
      SubsequenceDropFirst(a, c[1..]);
    }
  }

  /** Dropping the first element keeps a subsequence a subsequence. */
  lemma {:induction false} SubsequenceDropFirst<T>(a: seq<T>, t: seq<T>)
    requires a != [] && Subsequence(a, t)
    ensures Subsequence(a[1..], t)
    decreases |a| + |t|
  {
    if a[0] == t[0] {
      SubsequenceExtend(a[1..], t);
    } else {
      SubsequenceDropFirst(a, t[1..]);
      SubsequenceExtend(a[1..], t);
    }
  }

  lemma {:induction false} SubsequenceSuffix<T>(a: seq<T>, c: seq<T>, k: nat)
    requires k <= |c| && Subsequence(a, c[k..])
    ensures Subsequence(a, c)
    decreases k
  {
    if k > 0 {
      assert c[1..][k - 1..] == c[k..];
      SubsequenceSuffix(a, c[1..], k - 1);
      SubsequenceExtend(a, c);
    } else {
      assert c[0..] == c;
    }
  }

  lemma {:induction false} SubsequenceTrans<T>(a: seq<T>, b: seq<T>, c: seq<T>)
    requires Subsequence(a, b) && Subsequence(b, c)
    ensures Subsequence(a, c)
    decreases |c|
  {
    if a != [] {
      if b[0] == c[0] {
        if a[0] == b[0] {
          SubsequenceTrans(a[1..], b[1..], c[1..]);
        } else {
          SubsequenceTrans(a, b[1..], c[1..]);
        }
      } else {
        SubsequenceTrans(a, b, c[1..]);
        SubsequenceExtend(a, c);
      }
    }
  }

  // ---------------------------------------------------------------------
  // remove_vn_emoticons

  /** An emoticon pattern: a character followed by a run of another (`:[)]+`,
      `:>+`, `=\(+`, …), or a fixed text (`:\(\(`). */
  datatype Emoticon = Run(lead: char, tail: char) | Exact(text: string)

  /** The ten patterns, in the order they are applied. */
  const VnEmoticons: seq<Emoticon> :=
    [Run(':', ')'), Run('=', ')'), Exact(":(("), Exact("=(("), Run(':', '>'),
     Run(':', '<'), Run(':', 'v'), Run(':', 'V'), Run('=', ')'), Run('=', '(')]

  /** The length of the longest match of `e` at the start of `s`; 0 when there is none. */
  function MatchLength(e: Emoticon, s: string): (m: nat)
    ensures m <= |s|
  {
    match e
    case Run(lead, tail) =>
      if 2 <= |s| && s[0] == lead && s[1] == tail then 1 + Text.LeadCount(s[1..], c => c == tail) else 0
    case Exact(text) =>
      if text != [] && Text.OccursAt(s, text, 0) then |text| else 0
  }

  /** `re.sub(pattern, '', s)`: scanning from the left, every match is deleted
      and the scan resumes after it. */
  function Delete(e: Emoticon, s: string): (r: string)
    ensures |r| <= |s|
    decreases |s|
  {
    if s == [] then []
    else
      var m := MatchLength(e, s);
      if m > 0 then Delete(e, s[m..]) else [s[0]] + Delete(e, s[1..])
  }

  /** Applying the patterns one after the other. */
  function DeleteAll(patterns: seq<Emoticon>, s: string): (r: string)
    ensures |r| <= |s|
    decreases |patterns|
  {
    if patterns == [] then s else DeleteAll(patterns[1..], Delete(patterns[0], s))
  }

  /** `remove_vn_emoticons` on a cell: strings lose their emoticons, anything
      else comes back unchanged. */
  function RemoveVnEmoticons(c: MergeDataset.Cell): (r: MergeDataset.Cell)
    ensures !c.Str? ==> r == c
    ensures c.Str? ==> r.Str? && Subsequence(r.s, c.s)
  {
    if c.Str? then
      DeleteAllDeletes(VnEmoticons, c.s);
      MergeDataset.Str(DeleteAll(VnEmoticons, c.s))
    else c
  }

  /** A text with no ':' and no '='. */
  predicate MarkFree(s: string) {
    forall i :: 0 <= i < |s| ==> s[i] != ':' && s[i] != '='
  }

  /** A pattern whose every match starts with ':' or '='. */
  predicate StartsWithMark(e: Emoticon) {
    match e
    case Run(lead, _) => lead == ':' || lead == '='
    case Exact(text) => text != [] && (text[0] == ':' || text[0] == '=')
  }

  /** A pattern that starts with a mark leaves a mark-free text as it is. */
  lemma {:induction false} DeleteMarkFree(e: Emoticon, s: string)
    requires StartsWithMark(e) && MarkFree(s)
    ensures Delete(e, s) == s
    decreases |s|
  {
    if s != [] {
      assert MatchLength(e, s) == 0;
      assert MarkFree(s[1..]) by {
        forall i | 0 <= i < |s[1..]| ensures s[1..][i] != ':' && s[1..][i] != '=' {
          assert s[1..][i] == s[i + 1];
        }
      }
      DeleteMarkFree(e, s[1..]);
      assert s == [s[0]] + s[1..];
    }
  }

  /** The patterns one after the other leave a mark-free text as it is. */
  lemma {:induction false} DeleteAllMarkFree(patterns: seq<Emoticon>, s: string)
    requires forall i :: 0 <= i < |patterns| ==> StartsWithMark(patterns[i])
    requires MarkFree(s)
    ensures DeleteAll(patterns, s) == s
    decreases |patterns|
  {
    if patterns != [] {
      DeleteMarkFree(patterns[0], s);
      assert forall i :: 0 <= i < |patterns[1..]| ==> StartsWithMark(patterns[1..][i]) by {
        forall i | 0 <= i < |patterns[1..]| ensures StartsWithMark(patterns[1..][i]) {
          assert patterns[1..][i] == patterns[i + 1];
        }
      }
      DeleteAllMarkFree(patterns[1..], s);
    }
  }

  /** Every emoticon starts with ':' or '=', so a cell without either comes
      back unchanged. */
  lemma RemoveVnEmoticonsMarkFree(s: string)
    requires MarkFree(s)
    ensures RemoveVnEmoticons(MergeDataset.Str(s)) == MergeDataset.Str(s)
  {
    DeleteAllMarkFree(VnEmoticons, s);
  }

  /** Deleting matches only deletes: what is left is a subsequence of the input. */
  lemma {:induction false} DeleteDeletes(e: Emoticon, s: string)
    ensures Subsequence(Delete(e, s), s)
    decreases |s|
  {
    if s != [] {
      var m := MatchLength(e, s);
      if m > 0 {
        DeleteDeletes(e, s[m..]);
        SubsequenceSuffix(Delete(e, s[m..]), s, m);
      } else {
        var rest := Delete(e, s[1..]);
        DeleteDeletes(e, s[1..]);
        assert ([s[0]] + rest)[1..] == rest;
      }
    }
  }

  lemma {:induction false} DeleteAllDeletes(patterns: seq<Emoticon>, s: string)
    ensures Subsequence(DeleteAll(patterns, s), s)
    decreases |patterns|
  {
    if patterns == [] {
      SubsequenceRefl(s);
    } else {
      var t := Delete(patterns[0], s);
      DeleteDeletes(patterns[0], s);
      DeleteAllDeletes(patterns[1..], t);
      SubsequenceTrans(DeleteAll(patterns[1..], t), t, s);
    }
  }

  /** After a run pattern is deleted, no match of it is left: the character
      after a deleted run never continues it. */
  lemma {:induction false} DeleteRunLeavesNone(lead: char, tail: char, s: string, i: nat)
    requires lead != tail
    requires i < |Delete(Run(lead, tail), s)|
    ensures MatchLength(Run(lead, tail), Delete(Run(lead, tail), s)[i..]) == 0
    decreases |s|
  {
    var e := Run(lead, tail);
    var m := MatchLength(e, s);
    if m > 0 {
      DeleteRunLeavesNone(lead, tail, s[m..], i);
    } else {
      var rest := Delete(e, s[1..]);
      var r := [s[0]] + rest;
      if i > 0 {
        assert r[i..] == rest[i - 1..];
        DeleteRunLeavesNone(lead, tail, s[1..], i - 1);
      } else if |r| >= 2 && r[0] == lead && r[1] == tail {
        DeleteStartsWith(e, s[1..]);
        assert false;
      }
    }
  }

  /** What deleting a run pattern leaves starts like its input when the input
      does not start with a match. */
  lemma {:induction false} DeleteStartsWith(e: Emoticon, s: string)
    requires e.Run? && e.lead != e.tail
    requires Delete(e, s) != []
    ensures Delete(e, s)[0] == e.tail ==> s != [] && MatchLength(e, s) == 0 && s[0] == e.tail
    decreases |s|
  {
    var m := MatchLength(e, s);
    if m > 0 {
      var t := s[m..];
      var run := Text.LeadCount(s[1..], c => c == e.tail);
      assert m == 1 + run;
      if run < |s[1..]| {
        assert t[0] == s[1..][run];
        assert t[0] != e.tail;
        if Delete(e, t)[0] == e.tail {
          DeleteStartsWith(e, t);
        }
      }
    }
  }

  /** Deleting a fixed pattern can create a new match of it: `":(:((("` loses
      its one `":(("` and becomes `":(("`. */
  lemma ExactNotIdempotent()
    ensures Delete(Exact(":(("), ":(:(((") == ":(("
  {
    var e := Exact(":((");
    assert ":(:((("[0..3][2] != ":(("[2];
    assert MatchLength(e, ":(:(((") == 0;
    assert ":(:((("[1..] == "(:(((";
    assert "(:((("[0..3][0] != ":(("[0];
    assert MatchLength(e, "(:(((") == 0;
    assert "(:((("[1..] == ":(((";
    assert ":((("[0..3] == ":((";
    assert ":((("[3..] == "(";
    assert MatchLength(e, "(") == 0;
    assert "("[1..] == [];
  }

  // ---------------------------------------------------------------------
  // The tail of minimal_clean

  /** Every whitespace character is a space and no two are adjacent. */
  predicate Squeezed(r: string) {
    (forall i :: 0 <= i < |r| && Text.IsPySpace(r[i]) ==> r[i] == ' ')
    && (forall i :: 0 <= i < |r| - 1 ==> !(Text.IsPySpace(r[i]) && Text.IsPySpace(r[i + 1])))
  }

  /** `re.sub(r'\s+', ' ', s)`: each maximal whitespace run becomes one space. */
  function Squeeze(s: string): (r: string)
    ensures Squeezed(r)
    ensures r != [] <==> s != []
    ensures r != [] ==> (Text.IsPySpace(r[0]) <==> Text.IsPySpace(s[0]))
    decreases |s|
  {
    if s == [] then []
    else if Text.IsPySpace(s[0]) then
      var n := Text.LeadCount(s, Text.IsPySpace);
      var rest := Squeeze(s[n..]);
      assert n < |s| ==> !Text.IsPySpace(s[n..][0]);
      [' '] + rest
    else
      var rest := Squeeze(s[1..]);
      [s[0]] + rest
  }

  /** A stretch of a squeezed text is squeezed. */
  lemma SqueezedSlice(r: string, a: nat, b: nat)
    requires Squeezed(r) && a <= b <= |r|
    ensures Squeezed(r[a..b])
  {
    assert forall i :: 0 <= i < b - a ==> r[a..b][i] == r[a + i];
  }

  /** Lowercasing keeps whitespace where it is. */
  lemma LowerSpace(c: char)
    ensures Text.IsPySpace(Text.LowerChar(c)) <==> Text.IsPySpace(c)
    ensures Text.IsPySpace(c) ==> Text.LowerChar(c) == c
  {
  }

  lemma SqueezedLower(r: string)
    requires Squeezed(r)
    ensures Squeezed(Text.Lower(r))
  {
    var l := Text.Lower(r);
    forall i | 0 <= i < |l| ensures Text.IsPySpace(l[i]) <==> Text.IsPySpace(r[i]) {
      LowerSpace(r[i]);
    }
    forall i | 0 <= i < |l| && Text.IsPySpace(l[i]) ensures l[i] == ' ' {
      LowerSpace(r[i]);
    }
  }

  /** `re.sub(r'\s+', ' ', text).strip().lower()`. */
  function Tidy(s: string): (r: string)
    ensures Text.Lower(r) == r
  {
    Text.LowerIdempotent(Text.PyStrip(Squeeze(s)));
    Text.Lower(Text.PyStrip(Squeeze(s)))
  }

  /** What `minimal_clean` ends with: whitespace runs are single spaces, there
      is none at either end, and the text is in lower case. */
  predicate Tidied(r: string) {
    Squeezed(r)
    && (r != [] ==> !Text.IsPySpace(r[0]) && !Text.IsPySpace(r[|r| - 1]))
    && Text.Lower(r) == r
  }

  /** Stripping a squeezed text leaves it squeezed. */
  lemma StripSqueezed(q: string)
    requires Squeezed(q)
    ensures Squeezed(Text.PyStrip(q))
  {
    var p := Text.PyStrip(q);
    var a := Text.LeadCount(q, Text.IsPySpace);
    assert Text.StrippedAt(q, p, Text.IsPySpace, a);
    SqueezedSlice(q, a, a + |p|);
  }

  lemma TidyTidied(s: string)
    ensures Tidied(Tidy(s))
  {
    var p := Text.PyStrip(Squeeze(s));
    StripSqueezed(Squeeze(s));
    SqueezedLower(p);
    Text.LowerIdempotent(p);
    if p != [] {
      LowerSpace(p[0]);
      LowerSpace(p[|p| - 1]);
    }
  }

  /** Squeezing keeps every non-whitespace character, in order. */
  lemma {:induction false} SqueezeKeeps(s: string)
    ensures Text.Keep(Squeeze(s), Text.IsPySpace) == Text.Keep(s, Text.IsPySpace)
    decreases |s|
  {
    if s != [] {
      if Text.IsPySpace(s[0]) {
        var n := Text.LeadCount(s, Text.IsPySpace);
        Text.KeepSkipsLead(s, Text.IsPySpace);
        SqueezeKeeps(s[n..]);
        Text.KeepAppend([' '], Squeeze(s[n..]), Text.IsPySpace);
        assert Text.Keep([' '], Text.IsPySpace) == [];
      } else {
        SqueezeKeeps(s[1..]);
        Text.KeepAppend([s[0]], Squeeze(s[1..]), Text.IsPySpace);
        assert [s[0]][1..] == [];
      }
    }
  }

  /** Squeezing changes no word: `s.split()` is the same before and after. */
  lemma {:induction false} SqueezeWords(s: string)
    ensures Text.WordsBy(Squeeze(s), Text.IsPySpace) == Text.WordsBy(s, Text.IsPySpace)
    decreases |s|
  {
    if s != [] {
      if Text.IsPySpace(s[0]) {
        var n := Text.LeadCount(s, Text.IsPySpace);
        SqueezeWords(s[n..]);
        Text.WordsAfterSpace(' ', Squeeze(s[n..]), Text.IsPySpace);
        Text.WordsSkipLead(s, Text.IsPySpace);
      } else {
        SqueezeWords(s[1..]);
        Text.WordsAfterSameLetter(s[0], Squeeze(s[1..]), s[1..], Text.IsPySpace);
        assert s == [s[0]] + s[1..];
      }
    }
  }

  /** Stripping removes whitespace only. */
  lemma StripKeeps(x: string)
    ensures Text.Keep(Text.PyStrip(x), Text.IsPySpace) == Text.Keep(x, Text.IsPySpace)
  {
    var r, a := Text.PyStrip(x), Text.LeadCount(x, Text.IsPySpace);
    Text.StripParts(x, Text.IsPySpace);
    var pre, post := x[..a], x[a + |r|..];
    Text.KeepAppend(pre + r, post, Text.IsPySpace);
    Text.KeepAppend(pre, r, Text.IsPySpace);
    Text.KeepAllWs(pre, Text.IsPySpace);
    Text.KeepAllWs(post, Text.IsPySpace);
  }

  /** Lowercasing commutes with dropping whitespace. */
  lemma {:induction false} LowerKeeps(x: string)
    ensures Text.Keep(Text.Lower(x), Text.IsPySpace) == Text.Lower(Text.Keep(x, Text.IsPySpace))
    decreases |x|
  {
    if x != [] {
      LowerKeeps(x[1..]);
      LowerSpace(x[0]);
      assert Text.Lower(x)[1..] == Text.Lower(x[1..]);
      var k := Text.Keep(x[1..], Text.IsPySpace);
      if !Text.IsPySpace(x[0]) {
        assert Text.Lower([x[0]] + k) == [Text.LowerChar(x[0])] + Text.Lower(k);
      }
    }
  }

  /** The tail deletes and squeezes whitespace and lowercases, nothing else:
      its non-whitespace characters are the input's, lowered, in order. */
  lemma TidyKeeps(s: string)
    ensures Text.Keep(Tidy(s), Text.IsPySpace) == Text.Lower(Text.Keep(s, Text.IsPySpace))
  {
    var p := Text.PyStrip(Squeeze(s));
    LowerKeeps(p);
    StripKeeps(Squeeze(s));
    SqueezeKeeps(s);
  }

  /** What `minimal_clean` keeps of a string: its non-whitespace characters
      are those after the rewrites and the emoticon step, lowered, in order. */
  lemma MinimalCleanKeeps(x: string, early: string -> string, late: string -> string)
    ensures var t := late(DeleteAll(VnEmoticons, early(x)));
            Text.Keep(MinimalClean(MergeDataset.Str(x), early, late), Text.IsPySpace) == Text.Lower(Text.Keep(t, Text.IsPySpace))
  {
    TidyKeeps(late(DeleteAll(VnEmoticons, early(x))));
  }

  /** `minimal_clean`: non-strings become "", strings go through the rewrites
      before the emoticon step (`early`), the emoticon step, the rewrites after
      it (`late`) and the whitespace and case tail. */
  function MinimalClean(c: MergeDataset.Cell, early: string -> string, late: string -> string): (r: string)
    ensures !c.Str? ==> r == ""
    ensures Tidied(r)
  {
    if c.Str? then
      var e := RemoveVnEmoticons(MergeDataset.Str(early(c.s)));
      TidyTidied(late(e.s));
      Tidy(late(e.s))
    else ""
  }
}
