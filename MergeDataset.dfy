/** `update_excel_with_summaries`: the labelled spreadsheet with its columns
    renamed, its numeric labels replaced by their names, a summary column
    looked up from the post, and its columns put in a fixed order. The sheet
    is a sequence of named columns, as pandas keeps them; reading and writing
    the file are left to the caller. */
module MergeDataset {
  import opened Wrappers
  import Frames
  import Labels

  /** A spreadsheet cell: empty (NaN), a number or a string. */
  datatype Cell = Missing | Num(n: int) | Str(s: string)

  datatype Column = Column(name: string, cells: seq<Cell>)

  type Sheet = seq<Column>

  /** `list(df.columns)`. */
  function Names(sheet: Sheet): (r: seq<string>)
    ensures |r| == |sheet| && forall i :: 0 <= i < |sheet| ==> r[i] == sheet[i].name
  {
    if sheet == [] then [] else [sheet[0].name] + Names(sheet[1..])
  }

  /** The columns called `name`, in order. */
  function Named(sheet: Sheet, name: string): (r: Sheet)
    ensures forall i :: 0 <= i < |r| ==> r[i].name == name
  {
    if sheet == [] then []
    else (if sheet[0].name == name then [sheet[0]] else []) + Named(sheet[1..], name)
  }

  /** `df[name]` as a single column: None where pandas raises a KeyError (no
      such column) or hands back a frame that has no dictionary `map` (the
      name is repeated). */
  function Get(sheet: Sheet, name: string): (r: Option<seq<Cell>>)
    ensures r.Some? <==> |Named(sheet, name)| == 1
    ensures r.Some? ==> r.value == Named(sheet, name)[0].cells
  {
    var cs := Named(sheet, name);
    if |cs| == 1 then Some(cs[0].cells) else None
  }

  /** `df[name] = cells`: the columns called `name` take the new cells in
      place; without one, the column is added at the end. */
  function Set(sheet: Sheet, name: string, cells: seq<Cell>): Sheet {
    if Named(sheet, name) == [] then sheet + [Column(name, cells)] else Replace(sheet, name, cells)
  }

  /** Every column called `name` with the new cells. */
  function Replace(sheet: Sheet, name: string, cells: seq<Cell>): (r: Sheet)
    ensures |r| == |sheet|
    ensures forall i :: 0 <= i < |sheet| ==> r[i] == if sheet[i].name == name then Column(name, cells) else sheet[i]
  {
    if sheet == [] then []
    else [if sheet[0].name == name then Column(name, cells) else sheet[0]] + Replace(sheet[1..], name, cells)
  }

  /** `column_mapping`, applied by `rename`: the three raw names get their
      dataset names and every other name stays. */
  function NewName(name: string): string {
    if name == "orig_idx" then "id"
    else if name == "post_raw" then "post"
    else if name == "comment_raw" then "comment"
    else name
  }

  /** `df.rename(columns=column_mapping)`. */
  function Rename(sheet: Sheet): (r: Sheet)
    ensures |r| == |sheet|
    ensures forall i :: 0 <= i < |sheet| ==> r[i] == Column(NewName(sheet[i].name), sheet[i].cells)
  {
    if sheet == [] then [] else [Column(NewName(sheet[0].name), sheet[0].cells)] + Rename(sheet[1..])
  }

  /** `label_mapping` on one cell, as `Series.map` with a dict applies it: a
      value that is not a key becomes NaN. */
  function LabelCell(c: Cell): Cell {
    match c
    case Num(n) =>
      (match Labels.FromCode(n)
       case Some(l) => Str(l.Name())
       case None => Missing)
    case _ => Missing
  }

  /** `df['label'].map(label_mapping)`. */
  function MapLabels(cells: seq<Cell>): (r: seq<Cell>)
    ensures |r| == |cells| && forall i :: 0 <= i < |cells| ==> r[i] == LabelCell(cells[i])
  {
    seq(|cells|, i requires 0 <= i < |cells| => LabelCell(cells[i]))
  }

  /** `summaries` looked up for one post: a post that is not a key, a number
      or an empty cell becomes NaN. */
  function SummaryCell(summaries: map<string, string>, c: Cell): Cell {
    if c.Str? && c.s in summaries then Str(summaries[c.s]) else Missing
  }

  /** `df['post'].map(summaries)`. */
  function MapSummaries(post: seq<Cell>, summaries: map<string, string>): (r: seq<Cell>)
    ensures |r| == |post| && forall i :: 0 <= i < |post| ==> r[i] == SummaryCell(summaries, post[i])
  {
    seq(|post|, i requires 0 <= i < |post| => SummaryCell(summaries, post[i]))
  }

  /** `desired_order`. */
  const DesiredOrder: seq<string> := ["id", "post", "summary", "comment", "label", "platform", "created_date"]

  /** The set `col in df.columns` tests. */
  function NameSet(sheet: Sheet): (r: set<string>)
    ensures forall n :: n in r <==> n in Names(sheet)
  {
    set n | n in Names(sheet)
  }

  /** `df[wanted]`: for each wanted name in turn, the columns called so. */
  function Project(sheet: Sheet, wanted: seq<string>): Sheet
    decreases |wanted|
  {
    if wanted == [] then [] else Named(sheet, wanted[0]) + Project(sheet, wanted[1..])
  }

  /** The sheet renamed, with the label names and the summary column: None
      where the `label` or the `post` column cannot be read as one column
      (the exception the script catches and reports). */
  function Prepare(sheet: Sheet, summaries: map<string, string>): Option<Sheet> {
    Annotate(Rename(sheet), summaries)
  }

  /** The renamed sheet with the label names and the summary column. */
  function Annotate(renamed: Sheet, summaries: map<string, string>): Option<Sheet> {
    match Get(renamed, "label")
    case None => None
    case Some(labelCells) =>
      var labelled := Set(renamed, "label", MapLabels(labelCells));
      match Get(labelled, "post")
      case None => None
      case Some(post) => Some(Set(labelled, "summary", MapSummaries(post, summaries)))
  }

  /** `df[available_columns]`: the desired columns that exist, in the desired order. */
  function Arrange(sheet: Sheet): Sheet {
    Project(sheet, Frames.Select(DesiredOrder, NameSet(sheet)))
  }

  /** `update_excel_with_summaries` on the sheet already read. */
  function Update(sheet: Sheet, summaries: map<string, string>): Option<Sheet> {
    match Prepare(sheet, summaries)
    case None => None
    case Some(prepared) => Some(Arrange(prepared))
  }

  /** `updated_df['summary'].notna().sum()`. */
  function CountPresent(cells: seq<Cell>): (n: nat)
    ensures n <= |cells|
  {
    if cells == [] then 0 else CountPresent(cells[..|cells| - 1]) + (if cells[|cells| - 1].Missing? then 0 else 1)
  }

  /** The rows whose post is a key of the dictionary, in order. */
  function KeyRows(post: seq<Cell>, summaries: map<string, string>): (r: seq<nat>)
    ensures Frames.Increasing(r)
    ensures forall i: nat :: i in r <==> i < |post| && post[i].Str? && post[i].s in summaries
  {
    if post == [] then []
    else
      var n := |post| - 1;
      var r0 := KeyRows(post[..n], summaries);
      assert forall i :: 0 <= i < n ==> post[..n][i] == post[i];
      assert forall i :: 0 <= i < |r0| ==> r0[i] < n by {
        forall i | 0 <= i < |r0| ensures r0[i] < n {
          assert r0[i] in r0;
        }
      }
      if post[n].Str? && post[n].s in summaries then r0 + [n] else r0
  }

  // ---------------------------------------------------------------------
  // Properties

  /** The three label numbers get the three label names; every other cell
      becomes empty. */
  lemma LabelCellValues(c: Cell)
    ensures LabelCell(c) != Missing <==> c == Num(1) || c == Num(2) || c == Num(3)
    ensures LabelCell(Num(1)) == Str("PHAN_DONG") && LabelCell(Num(2)) == Str("KHONG_PHAN_DONG")
            && LabelCell(Num(3)) == Str("KHONG_LIEN_QUAN")
  {
  }

  /** A label written as its number reads back as its name. */
  lemma LabelCellCode(l: Labels.Label)
    ensures LabelCell(Num(l.Code())) == Str(l.Name())
  {
    Labels.FromCodeCode(l);
  }

  /** A renamed column keeps its cells; only the three raw names change, and
      only to their dataset names. */
  lemma NewNameValues(name: string)
    ensures NewName(name) != name <==> name in {"orig_idx", "post_raw", "comment_raw"}
    ensures name == "orig_idx" ==> NewName(name) == "id"
    ensures name == "post_raw" ==> NewName(name) == "post"
    ensures name == "comment_raw" ==> NewName(name) == "comment"
  {
  }

  /** The names present after renaming are the renamed names. */
  lemma NameSetRename(sheet: Sheet)
    ensures NameSet(Rename(sheet)) == set n | n in NameSet(sheet) :: NewName(n)
  {
    var r := Rename(sheet);
    forall x | x in NameSet(r) ensures x in set n | n in NameSet(sheet) :: NewName(n) {
      var i :| 0 <= i < |r| && r[i].name == x;
      assert sheet[i].name in NameSet(sheet);
    }
    forall x | x in set n | n in NameSet(sheet) :: NewName(n) ensures x in NameSet(r) {
      var n :| n in NameSet(sheet) && NewName(n) == x;
      var i :| 0 <= i < |sheet| && sheet[i].name == n;
      assert r[i].name == x;
    }
  }

  /** A name has columns exactly when it is among the names. */
  lemma {:induction false} NamedEmpty(sheet: Sheet, name: string)
    ensures Named(sheet, name) == [] <==> name !in Names(sheet)
  {
    if sheet != [] {
      NamedEmpty(sheet[1..], name);
      assert Names(sheet) == [sheet[0].name] + Names(sheet[1..]);
    }
  }

  /** With distinct names a name is held by at most one column. */
  lemma {:induction false} NamedDistinct(sheet: Sheet, name: string)
    requires Frames.Distinct(Names(sheet))
    ensures |Named(sheet, name)| <= 1
  {
    if sheet != [] {
      var tail := Names(sheet[1..]);
      assert tail == Names(sheet)[1..];
      NamedDistinct(sheet[1..], name);
      if sheet[0].name == name {
        forall i | 0 <= i < |tail| ensures tail[i] != name {
          assert tail[i] == Names(sheet)[i + 1];
        }
        NamedEmpty(sheet[1..], name);
      }
    }
  }

  /** Distinct names: a present name has exactly one column. */
  lemma NamedOne(sheet: Sheet, name: string)
    requires Frames.Distinct(Names(sheet)) && name in Names(sheet)
    ensures |Named(sheet, name)| == 1
  {
    NamedDistinct(sheet, name);
    NamedEmpty(sheet, name);
  }

  /** Columns of two sheets one after the other. */
  lemma {:induction false} NamedAppend(a: Sheet, b: Sheet, name: string)
    ensures Named(a + b, name) == Named(a, name) + Named(b, name)
  {
    if a == [] {
      assert a + b == b;
    } else {
      var head := if a[0].name == name then [a[0]] else [];
      assert (a + b)[0] == a[0] && (a + b)[1..] == a[1..] + b;
      assert Named(a + b, name) == head + Named(a[1..] + b, name);
      NamedAppend(a[1..], b, name);
      assert Named(a, name) == head + Named(a[1..], name);
    }
  }

  /** Setting a column in place keeps the names. */
  lemma {:induction false} NamesReplace(sheet: Sheet, name: string, cells: seq<Cell>)
    ensures Names(Replace(sheet, name, cells)) == Names(sheet)
  {
  }

  /** Setting a column in place leaves the columns of every other name as they were. */
  lemma {:induction false} NamedReplace(sheet: Sheet, name: string, cells: seq<Cell>, other: string)
    requires other != name
    ensures Named(Replace(sheet, name, cells), other) == Named(sheet, other)
  {
    if sheet != [] {
      assert Replace(sheet, name, cells)[1..] == Replace(sheet[1..], name, cells);
      NamedReplace(sheet[1..], name, cells, other);
    }
  }

  /** The columns called `name` after setting it in place: as many as before,
      each holding the new cells. */
  lemma {:induction false} NamedReplaceSame(sheet: Sheet, name: string, cells: seq<Cell>)
    ensures |Named(Replace(sheet, name, cells), name)| == |Named(sheet, name)|
    ensures forall i :: 0 <= i < |Named(Replace(sheet, name, cells), name)| ==>
              Named(Replace(sheet, name, cells), name)[i] == Column(name, cells)
  {
    if sheet != [] {
      assert Replace(sheet, name, cells)[1..] == Replace(sheet[1..], name, cells);
      NamedReplaceSame(sheet[1..], name, cells);
    }
  }

  /** `df[name] = cells` then `df[name]` gives the cells, provided the name
      was held by at most one column; every other column reads as before. */
  lemma GetSet(sheet: Sheet, name: string, cells: seq<Cell>, other: string)
    requires |Named(sheet, name)| <= 1
    ensures Get(Set(sheet, name, cells), name) == Some(cells)
    ensures other != name ==> Get(Set(sheet, name, cells), other) == Get(sheet, other)
  {
    if Named(sheet, name) == [] {
      NamedAppend(sheet, [Column(name, cells)], name);
      NamedAppend(sheet, [Column(name, cells)], other);
    } else {
      NamedReplaceSame(sheet, name, cells);
      if other != name {
        NamedReplace(sheet, name, cells, other);
      }
    }
  }

  /** The names after `df[name] = cells`: the same, with `name` added at the
      end when it was not there; distinct names stay distinct. */
  lemma NamesSet(sheet: Sheet, name: string, cells: seq<Cell>)
    ensures Names(Set(sheet, name, cells)) == if name in Names(sheet) then Names(sheet) else Names(sheet) + [name]
    ensures Frames.Distinct(Names(sheet)) ==> Frames.Distinct(Names(Set(sheet, name, cells)))
  {
    NamedEmpty(sheet, name);
    if name !in Names(sheet) {
      var r := Set(sheet, name, cells);
      assert Names(r) == Names(sheet) + [name];
    } else {
      NamesReplace(sheet, name, cells);
    }
  }

  /** Selecting distinct names that each have one column: one column per
      name, in the order asked for. */
  lemma {:induction false} ProjectNames(sheet: Sheet, wanted: seq<string>)
    requires Frames.Distinct(Names(sheet))
    requires forall n :: n in wanted ==> n in Names(sheet)
    ensures Names(Project(sheet, wanted)) == wanted
    decreases |wanted|
  {
    if wanted != [] {
      var rest := wanted[1..];
      assert forall n :: n in rest ==> n in wanted;
      ProjectNames(sheet, rest);
      NamedOne(sheet, wanted[0]);
      var col := Named(sheet, wanted[0])[0];
      assert Named(sheet, wanted[0]) == [col];
      var p := Project(sheet, rest);
      assert Project(sheet, wanted) == [col] + p;
      NamesCons(col, p);
      assert wanted == [wanted[0]] + rest;
    }
  }

  /** The names of a column followed by a sheet. */
  lemma NamesCons(col: Column, sheet: Sheet)
    ensures Names([col] + sheet) == [col.name] + Names(sheet)
  {
  }

  /** In such a selection each selected name reads as before. */
  lemma {:induction false} ProjectGet(sheet: Sheet, wanted: seq<string>, n: string)
    requires Frames.Distinct(Names(sheet)) && Frames.Distinct(wanted)
    requires forall m :: m in wanted ==> m in Names(sheet)
    requires n in wanted
    ensures Get(Project(sheet, wanted), n) == Get(sheet, n)
    decreases |wanted|
  {
    var w, rest := wanted[0], wanted[1..];
    NamedOne(sheet, w);
    var col := Named(sheet, w)[0];
    assert Named(sheet, w) == [col];
    var p := Project(sheet, rest);
    assert Project(sheet, wanted) == [col] + p;
    NamedAppend([col], p, n);
    if n == w {
      ProjectFirst(sheet, wanted, col, p);
    } else {
      assert Named([col], n) == [];
      assert Named(Project(sheet, wanted), n) == Named(p, n);
      assert n in rest;
      assert forall m :: m in rest ==> m in wanted;
      assert Frames.Distinct(rest) by {
        forall i, j | 0 <= i < j < |rest| ensures rest[i] != rest[j] {
          assert rest[i] == wanted[i + 1] && rest[j] == wanted[j + 1];
        }
      }
      ProjectGet(sheet, rest, n);
    }
  }

  /** The first selected name is not selected again, so its one column is
      the projection's one column of that name. */
  lemma ProjectFirst(sheet: Sheet, wanted: seq<string>, col: Column, p: Sheet)
    requires Frames.Distinct(Names(sheet)) && Frames.Distinct(wanted)
    requires forall m :: m in wanted ==> m in Names(sheet)
    requires wanted != [] && Named(sheet, wanted[0]) == [col]
    requires p == Project(sheet, wanted[1..])
    requires Named(Project(sheet, wanted), wanted[0]) == Named([col], wanted[0]) + Named(p, wanted[0])
    ensures Get(Project(sheet, wanted), wanted[0]) == Get(sheet, wanted[0])
  {
    var w, rest := wanted[0], wanted[1..];
    assert w !in rest by {
      forall j | 0 <= j < |rest| ensures rest[j] != w {
        assert rest[j] == wanted[j + 1];
      }
    }
    assert forall m :: m in rest ==> m in wanted;
    assert Frames.Distinct(rest) by {
      forall i, j | 0 <= i < j < |rest| ensures rest[i] != rest[j] {
        assert rest[i] == wanted[i + 1] && rest[j] == wanted[j + 1];
      }
    }
    ProjectNames(sheet, rest);
    NamedEmpty(p, w);
    assert Named([col], w) == [col];
  }

  /** The script reports an error exactly when, after renaming, `label` or
      `post` is not a single column. */
  lemma UpdateFails(sheet: Sheet, summaries: map<string, string>)
    ensures Update(sheet, summaries).None?
            <==> Get(Rename(sheet), "label").None? || Get(Rename(sheet), "post").None?
  {
    var renamed := Rename(sheet);
    if Get(renamed, "label").Some? {
      GetSet(renamed, "label", MapLabels(Get(renamed, "label").value), "post");
    }
  }

  /** Writing a column into a sheet with distinct names: the names gain it,
      stay distinct, it reads back, and every other column reads as before. */
  lemma SetStep(sheet: Sheet, name: string, cells: seq<Cell>)
    requires Frames.Distinct(Names(sheet))
    ensures var r := Set(sheet, name, cells);
            Frames.Distinct(Names(r)) && NameSet(r) == NameSet(sheet) + {name}
            && Get(r, name) == Some(cells)
            && forall n :: n != name ==> Get(r, n) == Get(sheet, n)
  {
    NamedDistinct(sheet, name);
    NamesSet(sheet, name, cells);
    forall n | n != name ensures Get(Set(sheet, name, cells), n) == Get(sheet, n) {
      GetSet(sheet, name, cells, n);
    }
    GetSet(sheet, name, cells, name);
  }

  /** Writing two different columns one after the other. */
  lemma SetTwice(sheet: Sheet, a: string, ca: seq<Cell>, b: string, cb: seq<Cell>)
    requires Frames.Distinct(Names(sheet)) && a != b
    ensures var r := Set(Set(sheet, a, ca), b, cb);
            Frames.Distinct(Names(r)) && NameSet(r) == NameSet(sheet) + {a, b}
            && Get(r, a) == Some(ca) && Get(r, b) == Some(cb)
            && forall n :: n != a && n != b ==> Get(r, n) == Get(sheet, n)
  {
    SetStep(sheet, a, ca);
    SetStep(Set(sheet, a, ca), b, cb);
  }

  /** Labelling and adding the summary to a sheet with distinct names that
      has `label` and `post`: the names gain `summary`, `label` holds the
      label names, `summary` each row's post looked up, and every other
      column is as before. */
  lemma AnnotateColumns(renamed: Sheet, summaries: map<string, string>)
    requires Frames.Distinct(Names(renamed))
    requires Get(renamed, "label").Some? && Get(renamed, "post").Some?
    ensures Annotate(renamed, summaries).Some?
    ensures var p := Annotate(renamed, summaries).value;
            Frames.Distinct(Names(p)) && NameSet(p) == NameSet(renamed) + {"summary"}
            && Get(p, "label") == Some(MapLabels(Get(renamed, "label").value))
            && Get(p, "summary") == Some(MapSummaries(Get(renamed, "post").value, summaries))
            && forall n :: n != "label" && n != "summary" ==> Get(p, n) == Get(renamed, n)
  {
    var labels := MapLabels(Get(renamed, "label").value);
    var post := Get(renamed, "post").value;
    GetSet(renamed, "label", labels, "post");
    assert Annotate(renamed, summaries) == Some(Set(Set(renamed, "label", labels), "summary", MapSummaries(post, summaries)));
    SetTwice(renamed, "label", labels, "summary", MapSummaries(post, summaries));
    NamedEmpty(renamed, "label");
  }

  /** The desired names are distinct. */
  lemma DesiredDistinct()
    ensures Frames.Distinct(DesiredOrder)
  {
  }

  /** Arranging a sheet with distinct names: the desired names that are
      present, in the desired order, each reading as before. */
  lemma ArrangeColumns(sheet: Sheet)
    requires Frames.Distinct(Names(sheet))
    ensures Names(Arrange(sheet)) == Frames.Select(DesiredOrder, NameSet(sheet))
    ensures forall n :: n in DesiredOrder && n in NameSet(sheet) ==> Get(Arrange(sheet), n) == Get(sheet, n)
  {
    var wanted := Frames.Select(DesiredOrder, NameSet(sheet));
    Frames.SelectMembers(DesiredOrder, NameSet(sheet));
    DesiredDistinct();
    ProjectNames(sheet, wanted);
    forall n | n in DesiredOrder && n in NameSet(sheet) ensures Get(Arrange(sheet), n) == Get(sheet, n) {
      ProjectGet(sheet, wanted, n);
    }
  }

  /** On a sheet whose names stay distinct once renamed (pandas reads a
      sheet with distinct names; renaming keeps them distinct unless a raw
      name and its dataset name are both present) and that has `label` and
      `post` once renamed, the result holds exactly the desired columns that
      are present (with `summary` always among them) in the desired order;
      `label` holds the label names, `summary` each row's post looked up in
      the dictionary, and every other column its renamed original. */
  lemma UpdateColumns(sheet: Sheet, summaries: map<string, string>)
    requires Frames.Distinct(Names(Rename(sheet)))
    requires Get(Rename(sheet), "label").Some? && Get(Rename(sheet), "post").Some?
    ensures Update(sheet, summaries).Some?
    ensures var renamed, out := Rename(sheet), Update(sheet, summaries).value;
            Names(out) == Frames.Select(DesiredOrder, NameSet(renamed) + {"summary"})
            && Get(out, "label") == Some(MapLabels(Get(renamed, "label").value))
            && Get(out, "summary") == Some(MapSummaries(Get(renamed, "post").value, summaries))
            && forall n :: n in DesiredOrder && n in NameSet(renamed) && n != "label" && n != "summary"
                 ==> Get(out, n) == Get(renamed, n)
  {
    AnnotateColumns(Rename(sheet), summaries);
    var p := Prepare(sheet, summaries).value;
    ArrangeColumns(p);
    NamedEmpty(Rename(sheet), "label");
  }

  /** The number of mapped summaries is the number of rows whose post is a key. */
  lemma {:induction false} CountSummaries(post: seq<Cell>, summaries: map<string, string>)
    ensures CountPresent(MapSummaries(post, summaries)) == |KeyRows(post, summaries)|
  {
    if post != [] {
      var n := |post| - 1;
      CountSummaries(post[..n], summaries);
      assert MapSummaries(post, summaries)[..n] == MapSummaries(post[..n], summaries);
    }
  }
}
