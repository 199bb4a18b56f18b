/** `clean_data` of the minimal first-clean script: `minimal_clean` on the post
    and comment of every row, then only the rows whose cleaned comment is
    longer than three characters (after stripping) or holds a special pattern
    are kept, in order, renumbered from 0. Reading and writing the workbook
    and the column-width formatting are left to the caller. */
module MinimalClean {
  import Text
  import Frames
  import Cleaning
  import MergeDataset

  type Cell = MergeDataset.Cell

  /** A row of the sheet: its `post_raw` and `comment_raw` cells and the others. */
  datatype Row = Row(post: Cell, comment: Cell, others: seq<Cell>)

  const SpecialPatterns: seq<string> := ["///", "---", "***", "???"]

  /** `is_special_pattern`: a string containing one of the four patterns, as
      written (no case mapping, no stripping). */
  predicate IsSpecialPattern(c: Cell) {
    c.Str? && exists i :: 0 <= i < |SpecialPatterns| && Text.Contains(c.s, SpecialPatterns[i])
  }

  /** The condition a row's comment must meet to be kept. */
  predicate Keeps(c: Cell) {
    c.Str? && (|Text.PyStrip(c.s)| > 3 || IsSpecialPattern(c))
  }

  /** The comment cells of the rows. */
  function Comments(rows: seq<Row>): (r: seq<Cell>)
    ensures |r| == |rows| && forall i :: 0 <= i < |rows| ==> r[i] == rows[i].comment
  {
    seq(|rows|, i requires 0 <= i < |rows| => rows[i].comment)
  }

  /** `minimal_clean` applied to the post and the comment of a row. */
  function CleanRow(row: Row, early: string -> string, late: string -> string): Row {
    row.(post := MergeDataset.Str(Cleaning.MinimalClean(row.post, early, late)),
         comment := MergeDataset.Str(Cleaning.MinimalClean(row.comment, early, late)))
  }

  function CleanRows(rows: seq<Row>, early: string -> string, late: string -> string): (r: seq<Row>)
    ensures |r| == |rows| && forall i :: 0 <= i < |rows| ==> r[i] == CleanRow(rows[i], early, late)
  {
    seq(|rows|, i requires 0 <= i < |rows| => CleanRow(rows[i], early, late))
  }

  /** The loop collecting `keep_indices`: exactly the positions whose comment
      meets the condition, in order. */
  method KeepIndices(comments: seq<Cell>) returns (keep: seq<nat>)
    ensures keep == Frames.Where(comments, Keeps, |comments|)
  {
    keep := [];
    var idx := 0;
    while idx < |comments|
      invariant idx <= |comments|
      invariant keep == Frames.Where(comments, Keeps, idx)
    {
      Frames.WhereStep(comments, Keeps, idx);
      if Keeps(comments[idx]) {
        keep := keep + [idx];
      }
      idx := idx + 1;
    }
  }

  /** `clean_data` on the rows of the sheet. */
  method CleanData(rows: seq<Row>, early: string -> string, late: string -> string) returns (out: seq<Row>)
    ensures var cleaned := CleanRows(rows, early, late);
            out == Frames.Take(cleaned, Frames.Where(Comments(cleaned), Keeps, |cleaned|))
  {
    var cleaned := CleanRows(rows, early, late);
    var keep := KeepIndices(Comments(cleaned));
    Frames.WhereFacts(Comments(cleaned), Keeps, |cleaned|);
    out := Frames.Take(cleaned, keep);
  }

  // ---------------------------------------------------------------------
  // Properties

  /** A cleaned comment is a string with nothing to strip, so the condition
      reduces to more than three characters or a special pattern. */
  lemma KeepsCleaned(c: Cell, early: string -> string, late: string -> string)
    ensures var t := Cleaning.MinimalClean(c, early, late);
            Keeps(MergeDataset.Str(t)) <==> |t| > 3 || IsSpecialPattern(MergeDataset.Str(t))
  {
    var t := Cleaning.MinimalClean(c, early, late);
    Text.StripByUnchanged(t, Text.IsPySpace);
  }

  /** Every row that is kept came from the input, in the same relative order,
      and has a cleaned comment of more than three characters or a special one. */
  lemma CleanDataKept(rows: seq<Row>, early: string -> string, late: string -> string, out: seq<Row>)
    requires var cleaned := CleanRows(rows, early, late);
             out == Frames.Take(cleaned, Frames.Where(Comments(cleaned), Keeps, |cleaned|))
    ensures |out| <= |rows|
    ensures forall j :: 0 <= j < |out| ==>
              out[j].comment.Str? && Cleaning.Tidied(out[j].comment.s)
              && (|out[j].comment.s| > 3 || IsSpecialPattern(out[j].comment))
    ensures exists keep: seq<nat> :: Frames.Increasing(keep) && |keep| == |out|
              && forall j :: 0 <= j < |out| ==> keep[j] < |rows| && out[j] == CleanRow(rows[keep[j]], early, late)
  {
    var cleaned := CleanRows(rows, early, late);
    var cs := Comments(cleaned);
    var keep := Frames.Where(cs, Keeps, |cleaned|);
    Frames.WherePasses(cs, Keeps, |cleaned|);
    KeptFrom(rows, early, late, cleaned, cs, keep, out);
  }

  /** The rows taken at increasing positions whose cleaned comment passes the
      condition: as many as the positions, each the cleaned row at its
      position, with a tidied comment of more than three characters or a
      special one. */
  lemma KeptFrom(rows: seq<Row>, early: string -> string, late: string -> string,
                 cleaned: seq<Row>, cs: seq<Cell>, keep: seq<nat>, out: seq<Row>)
    requires |cleaned| == |rows| && forall i :: 0 <= i < |rows| ==> cleaned[i] == CleanRow(rows[i], early, late)
    requires |cs| == |cleaned| && forall i :: 0 <= i < |cleaned| ==> cs[i] == cleaned[i].comment
    requires Frames.Increasing(keep) && |keep| <= |rows| && forall j :: 0 <= j < |keep| ==> keep[j] < |rows|
    requires forall j :: 0 <= j < |keep| ==> Keeps(cs[keep[j]])
    requires |out| == |keep| && forall j :: 0 <= j < |out| ==> out[j] == cleaned[keep[j]]
    ensures |out| <= |rows|
    ensures forall j :: 0 <= j < |out| ==>
              out[j].comment.Str? && Cleaning.Tidied(out[j].comment.s)
              && (|out[j].comment.s| > 3 || IsSpecialPattern(out[j].comment))
    ensures exists keep: seq<nat> :: Frames.Increasing(keep) && |keep| == |out|
              && forall j :: 0 <= j < |out| ==> keep[j] < |rows| && out[j] == CleanRow(rows[keep[j]], early, late)
  {
    forall j | 0 <= j < |out|
      ensures keep[j] < |rows| && out[j] == CleanRow(rows[keep[j]], early, late)
      ensures out[j].comment.Str? && Cleaning.Tidied(out[j].comment.s)
              && (|out[j].comment.s| > 3 || IsSpecialPattern(out[j].comment))
    {
      KeptRow(rows[keep[j]], early, late);
    }
  }

  /** A row whose cleaned comment passes the condition has a tidied comment
      of more than three characters or a special one. */
  lemma KeptRow(row: Row, early: string -> string, late: string -> string)
    requires Keeps(CleanRow(row, early, late).comment)
    ensures var c := CleanRow(row, early, late).comment;
            c.Str? && Cleaning.Tidied(c.s) && (|c.s| > 3 || IsSpecialPattern(c))
  {
    KeepsCleaned(row.comment, early, late);
  }

  /** The rows that are dropped are exactly those whose comment fails the
      condition; together with the kept rows they are all the rows. */
  lemma CleanDataDropped(rows: seq<Row>, early: string -> string, late: string -> string)
    ensures var cleaned := CleanRows(rows, early, late);
            |Frames.Where(Comments(cleaned), Keeps, |cleaned|)|
            + |Frames.Where(Comments(cleaned), Frames.Not(Keeps), |cleaned|)| == |rows|
  {
    var cleaned := CleanRows(rows, early, late);
    Frames.WherePartition(Comments(cleaned), Keeps, |cleaned|);
  }

  /** Without a `comment_raw` column every row reads '' and none is kept. */
  lemma MissingColumnKeepsNone()
    ensures !Keeps(MergeDataset.Str(""))
  {
    forall i | 0 <= i < |SpecialPatterns| ensures !Text.Contains("", SpecialPatterns[i]) {
      assert |SpecialPatterns[i]| == 3;
    }
  }
}
