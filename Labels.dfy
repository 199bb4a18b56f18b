/** The closed set of comment stances every labelling stage works in, with the
    label strings the datasets store. */
module Labels {
  import opened Wrappers

  datatype Label = PhanDong | KhongPhanDong | KhongLienQuan {

    /** The string written to the `label` column. */
    function Name(): string {
      match this
      case PhanDong => "PHAN_DONG"
      case KhongPhanDong => "KHONG_PHAN_DONG"
      case KhongLienQuan => "KHONG_LIEN_QUAN"
    }

    /** The number the labelled spreadsheets store for the label. */
    function Code(): int {
      match this
      case PhanDong => 1
      case KhongPhanDong => 2
      case KhongLienQuan => 3
    }
  }

  /** Lookup in `{1: 'PHAN_DONG', 2: 'KHONG_PHAN_DONG', 3: 'KHONG_LIEN_QUAN'}`. */
  function FromCode(n: int): (r: Option<Label>)
    ensures r.Some? ==> r.value.Code() == n
    ensures r.None? <==> n !in {1, 2, 3}
  {
    if n == 1 then Some(PhanDong)
    else if n == 2 then Some(KhongPhanDong)
    else if n == 3 then Some(KhongLienQuan)
    else None
  }

  /** Reading a label's number gives the label back. */
  lemma FromCodeCode(l: Label)
    ensures FromCode(l.Code()) == Some(l)
  {
  }

  /** Membership of a string in `{'PHAN_DONG', 'KHONG_PHAN_DONG', 'KHONG_LIEN_QUAN'}`. */
  function FromName(s: string): (r: Option<Label>)
    ensures r.Some? ==> r.value.Name() == s
  {
    if s == "PHAN_DONG" then Some(PhanDong)
    else if s == "KHONG_PHAN_DONG" then Some(KhongPhanDong)
    else if s == "KHONG_LIEN_QUAN" then Some(KhongLienQuan)
    else None
  }

  /** Reading a label's name gives the label back: the three names are the whole set. */
  lemma FromNameName(l: Label)
    ensures FromName(l.Name()) == Some(l)
  {
  }

  /** Distinct labels have distinct names. */
  lemma NameInjective(a: Label, b: Label)
    requires a.Name() == b.Name()
    ensures a == b
  {
    FromNameName(a);
    FromNameName(b);
  }

  /** The strings a label column may hold: unlabelled, or one of the three names. */
  predicate IsLabelCell(s: string) {
    s == "" || FromName(s).Some?
  }

  /** The missing-id fill both labellers end a batch with: every row of the
      batch without a label gets KHONG_LIEN_QUAN, and nothing else changes. */
  function FillMissing<K(!new)>(labels: map<K, Label>, rows: seq<K>): (r: map<K, Label>)
    ensures forall k :: k in r <==> k in labels || k in rows
    ensures forall k :: k in labels ==> r[k] == labels[k]
    ensures forall k :: k in rows && k !in labels ==> r[k] == KhongLienQuan
  {
    map k | k in labels.Keys + set i | 0 <= i < |rows| :: rows[i] :: if k in labels then labels[k] else KhongLienQuan
  }
}
