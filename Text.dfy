/** String operations shared by the Python and JavaScript parts of the system:
    substring search, Python `str.strip`/`str.split`/`str.replace`/`int`,
    JavaScript `trim`/`split`/`parseInt`, case mapping and decimal rendering.
    Strings are sequences of Unicode scalar values; the search and split
    functions are generic so that the UTF-16 model of the Threads scraper can
    reuse them on code units. */
module Text {
  import opened Wrappers

  // ---------------------------------------------------------------------
  // Whitespace classes

  /** Python's `str.isspace`: the characters `str.strip()` and `str.split()` remove. */
  predicate IsPySpace(c: char) {
    c == '\t' || c == '\n' || c == '\U{000B}' || c == '\U{000C}' || c == '\r'
    || ('\U{001C}' <= c <= '\U{001F}') || c == ' ' || c == '\U{0085}' || c == '\U{00A0}'
    || c == '\U{1680}' || ('\U{2000}' <= c <= '\U{200A}') || c == '\U{2028}' || c == '\U{2029}'
    || c == '\U{202F}' || c == '\U{205F}' || c == '\U{3000}'
  }

  /** ECMAScript WhiteSpace and LineTerminator: what `trim()` and `\s` accept. */
  predicate IsJsSpace(c: char) {
    c == '\t' || c == '\n' || c == '\U{000B}' || c == '\U{000C}' || c == '\r' || c == ' '
    || c == '\U{00A0}' || c == '\U{1680}' || ('\U{2000}' <= c <= '\U{200A}')
    || c == '\U{2028}' || c == '\U{2029}' || c == '\U{202F}' || c == '\U{205F}'
    || c == '\U{3000}' || c == '\U{FEFF}'
  }

  predicate IsAsciiDigit(c: char) { '0' <= c <= '9' }

  // ---------------------------------------------------------------------
  // Substring search

  /** `p` occurs in `s` starting at index `i`. */
  predicate OccursAt<T(==)>(s: seq<T>, p: seq<T>, i: nat) {
    i + |p| <= |s| && s[i..i + |p|] == p
  }

  /** Python `s.find(p, i)` / JavaScript `s.indexOf(p, i)`: the first occurrence at or after `i`. */
  function FindFrom<T(==)>(s: seq<T>, p: seq<T>, i: nat): (r: Option<nat>)
    requires i <= |s|
    ensures r.Some? ==> i <= r.value <= |s| && OccursAt(s, p, r.value)
    ensures r.Some? ==> forall j :: i <= j < r.value ==> !OccursAt(s, p, j)
    ensures r.None? ==> forall j :: i <= j <= |s| ==> !OccursAt(s, p, j)
    decreases |s| - i
  {
    if OccursAt(s, p, i) then Some(i)
    else if i == |s| then None
    else FindFrom(s, p, i + 1)
  }

  function Find<T(==)>(s: seq<T>, p: seq<T>): Option<nat> {
    FindFrom(s, p, 0)
  }

  /** Python `p in s` / JavaScript `s.includes(p)`. */
  predicate Contains<T(==)>(s: seq<T>, p: seq<T>) {
    Find(s, p).Some?
  }

  /** The greatest occurrence of `p` in `s` that starts below `k`. */
  function LastBelow<T(==)>(s: seq<T>, p: seq<T>, k: nat): (r: Option<nat>)
    ensures r.Some? ==> r.value < k && OccursAt(s, p, r.value)
    ensures r.Some? ==> forall j :: r.value < j < k ==> !OccursAt(s, p, j)
    ensures r.None? ==> forall j :: 0 <= j < k ==> !OccursAt(s, p, j)
  {
    if k == 0 then None
    else if OccursAt(s, p, k - 1) then Some(k - 1)
    else LastBelow(s, p, k - 1)
  }

  /** Python `s.rfind(p)` / JavaScript `s.lastIndexOf(p)`: the last occurrence. */
  function FindLast<T(==)>(s: seq<T>, p: seq<T>): Option<nat> {
    LastBelow(s, p, |s| + 1)
  }

  /** The last occurrence below `k` is `c` when `p` occurs there and nowhere after it below `k`. */
  lemma {:induction false} LastBelowIs<T>(s: seq<T>, p: seq<T>, c: nat, k: nat)
    requires c < k && OccursAt(s, p, c)
    requires forall j :: c < j < k ==> !OccursAt(s, p, j)
    ensures LastBelow(s, p, k) == Some(c)
    decreases k
  {
    if k - 1 != c {
      LastBelowIs(s, p, c, k - 1);
    }
  }

  lemma ContainsExactly<T>(s: seq<T>, p: seq<T>, j: nat)
    requires OccursAt(s, p, j)
    ensures Contains(s, p)
  {
  }

  /** `p` occurs in `a + p + b` right after `a`. */
  lemma OccursBetween<T>(a: seq<T>, p: seq<T>, b: seq<T>)
    ensures OccursAt(a + p + b, p, |a|)
  {
    assert (a + p + b)[|a|..|a| + |p|] == p;
  }

  /** An occurrence of `p` inside a slice is an occurrence in the whole. */
  lemma OccursInSlice<T>(s: seq<T>, p: seq<T>, a: nat, j: nat)
    requires a <= |s| && OccursAt(s[a..], p, j)
    ensures OccursAt(s, p, a + j)
  {
    assert s[a..][j..j + |p|] == s[a + j..a + j + |p|];
  }

  lemma OccursInPrefix<T>(s: seq<T>, p: seq<T>, b: nat, j: nat)
    requires b <= |s| && OccursAt(s[..b], p, j)
    ensures OccursAt(s, p, j)
  {
    assert s[..b][j..j + |p|] == s[j..j + |p|];
  }

  /** The first occurrence at or after `i` is at `k` when `p` occurs there and nowhere in between. */
  lemma {:induction false} FindFromIs<T>(s: seq<T>, p: seq<T>, i: nat, k: nat)
    requires i <= k && OccursAt(s, p, k)
    requires forall j :: i <= j < k ==> !OccursAt(s, p, j)
    ensures FindFrom(s, p, i) == Some(k)
    decreases k - i
  {
    if i < k {
      FindFromIs(s, p, i + 1, k);
    }
  }

  /** `p` cannot occur over a position holding an element that `p` lacks. */
  lemma NotAtForeign<T>(s: seq<T>, p: seq<T>, j: nat, q: nat)
    requires j <= q < j + |p| && q < |s|
    requires forall x :: 0 <= x < |p| ==> p[x] != s[q]
    ensures !OccursAt(s, p, j)
  {
    assert j + |p| <= |s| ==> s[j..j + |p|][q - j] == s[q];
  }

  /** `p` cannot occur inside a stretch of `s` that equals a text without `p`. */
  lemma NotWithin<T>(s: seq<T>, p: seq<T>, b: nat, body: seq<T>, j: nat)
    requires b + |body| <= |s| && s[b..b + |body|] == body && !Contains(body, p)
    requires b <= j && j + |p| <= b + |body|
    ensures !OccursAt(s, p, j)
  {
    forall k | j <= k < j + |p| ensures s[k] == body[k - b] {
      assert s[k] == s[b..b + |body|][k - b];
    }
    assert body[j - b..j - b + |p|] == s[j..j + |p|];
    assert !OccursAt(body, p, j - b);
  }

  // ---------------------------------------------------------------------
  // Stripping

  /** The number of leading elements satisfying `ws`. */
  function LeadCount<T>(s: seq<T>, ws: T -> bool): (n: nat)
    ensures n <= |s|
    ensures forall k :: 0 <= k < n ==> ws(s[k])
    ensures n < |s| ==> !ws(s[n])
  {
    if s == [] || !ws(s[0]) then 0 else 1 + LeadCount(s[1..], ws)
  }

  /** The number of trailing elements satisfying `ws`. */
  function TrailCount<T>(s: seq<T>, ws: T -> bool): (n: nat)
    ensures n <= |s|
    ensures forall k :: |s| - n <= k < |s| ==> ws(s[k])
    ensures n < |s| ==> !ws(s[|s| - 1 - n])
  {
    if s == [] || !ws(s[|s| - 1]) then 0 else 1 + TrailCount(s[..|s| - 1], ws)
  }

  /** `r` is `s[i..i + |r|]`, and everything of `s` around it satisfies `ws`. */
  ghost predicate StrippedAt<T>(s: seq<T>, r: seq<T>, ws: T -> bool, i: nat) {
    i + |r| <= |s| && s[i..i + |r|] == r
    && (forall k :: 0 <= k < i ==> ws(s[k]))
    && (forall k :: i + |r| <= k < |s| ==> ws(s[k]))
  }

  /** Removal of the leading and trailing run of `ws` elements. */
  function StripBy<T>(s: seq<T>, ws: T -> bool): (r: seq<T>)
    ensures r != [] ==> !ws(r[0]) && !ws(r[|r| - 1])
    ensures StrippedAt(s, r, ws, LeadCount(s, ws))
  {
    var a := LeadCount(s, ws);
    var b := TrailCount(s[a..], ws);
    StripRuns(s, ws, a, b);
    s[a..a + (|s| - a - b)]
  }

  /** What is left between the leading run of `a` and the trailing run of
      `b` elements satisfying `ws` starts and ends with elements that do not
      satisfy it, and everything around it does. */
  lemma StripRuns<T>(s: seq<T>, ws: T -> bool, a: nat, b: nat)
    requires a == LeadCount(s, ws) && b == TrailCount(s[a..], ws)
    ensures a + b <= |s|
    ensures var r := s[a..a + (|s| - a - b)];
            (r != [] ==> !ws(r[0]) && !ws(r[|r| - 1])) && StrippedAt(s, r, ws, a)
  {
    var t := s[a..];
    var r := s[a..a + (|s| - a - b)];
    forall k | a + |r| <= k < |s|
      ensures ws(s[k])
    {
      assert s[k] == t[k - a];
    }
    if r != [] {
      assert r[0] == s[a];
      assert r[|r| - 1] == t[|t| - 1 - b];
    }
  }

  /** Python `str.strip()` with no argument. */
  function PyStrip(s: string): string {
    StripBy(s, IsPySpace)
  }

  /** JavaScript `String.prototype.trim`. */
  function JsTrim(s: string): string {
    StripBy(s, IsJsSpace)
  }

  /** A sequence without a `ws` element at either end is left alone. */
  lemma StripByUnchanged<T>(r: seq<T>, ws: T -> bool)
    requires r != [] ==> !ws(r[0]) && !ws(r[|r| - 1])
    ensures StripBy(r, ws) == r
  {
    if r != [] {
      assert LeadCount(r, ws) == 0;
      assert r[0..] == r;
      assert TrailCount(r, ws) == 0;
    }
  }

  /** Stripping is idempotent. */
  lemma StripByIdempotent<T>(s: seq<T>, ws: T -> bool)
    ensures StripBy(StripBy(s, ws), ws) == StripBy(s, ws)
  {
    StripByUnchanged(StripBy(s, ws), ws);
  }

  /** Padding a stripped text with `ws` elements on both sides strips back to it. */
  lemma StripPadded<T>(w1: seq<T>, body: seq<T>, w2: seq<T>, ws: T -> bool)
    requires forall k :: 0 <= k < |w1| ==> ws(w1[k])
    requires forall k :: 0 <= k < |w2| ==> ws(w2[k])
    requires body != [] ==> !ws(body[0]) && !ws(body[|body| - 1])
    ensures StripBy(w1 + body + w2, ws) == body
  {
    var x := w1 + body + w2;
    var r := StripBy(x, ws);
    var a := LeadCount(x, ws);
    if body != [] {
      assert x[|w1|] == body[0];
      assert a == |w1|;
      assert x[|w1| + |body| - 1] == body[|body| - 1];
    }
  }

  predicate AllBy<T>(s: seq<T>, ws: T -> bool) {
    forall k :: 0 <= k < |s| ==> ws(s[k])
  }

  lemma AllByAppend<T>(a: seq<T>, b: seq<T>, ws: T -> bool)
    requires AllBy(a, ws) && AllBy(b, ws)
    ensures AllBy(a + b, ws)
  {
    assert forall k :: 0 <= k < |a + b| ==> (a + b)[k] == if k < |a| then a[k] else b[k - |a|];
  }

  /** What stripping leaves, and the runs of `ws` elements it removes around it. */
  lemma StripParts<T>(x: seq<T>, ws: T -> bool)
    ensures var r, a := StripBy(x, ws), LeadCount(x, ws);
            a + |r| <= |x| && x == x[..a] + r + x[a + |r|..]
            && AllBy(x[..a], ws) && AllBy(x[a + |r|..], ws)
  {
    var r, a := StripBy(x, ws), LeadCount(x, ws);
    assert StrippedAt(x, r, ws, a);
    var e := a + |r|;
    SplitThree(x, a, e);
    AllByBefore(x, a, ws);
    AllByFrom(x, e, ws);
  }

  /** A sequence is its three pieces cut at `a` and `e`. */
  lemma SplitThree<T>(x: seq<T>, a: nat, e: nat)
    requires a <= e <= |x|
    ensures x == x[..a] + x[a..e] + x[e..]
  {
    assert x[..e] == x[..a] + x[a..e];
    assert x == x[..e] + x[e..];
  }

  lemma AllByBefore<T>(x: seq<T>, a: nat, ws: T -> bool)
    requires a <= |x| && forall k :: 0 <= k < a ==> ws(x[k])
    ensures AllBy(x[..a], ws)
  {
  }

  lemma AllByFrom<T>(x: seq<T>, e: nat, ws: T -> bool)
    requires e <= |x| && forall k :: e <= k < |x| ==> ws(x[k])
    ensures AllBy(x[e..], ws)
  {
    forall q | 0 <= q < |x| - e
      ensures ws(x[e..][q])
    {
      assert x[e..][q] == x[e + q];
    }
  }

  lemma Regroup<T>(w1: seq<T>, pre: seq<T>, r: seq<T>, post: seq<T>, w2: seq<T>)
    ensures w1 + (pre + r + post) + w2 == (w1 + pre) + r + (post + w2)
  {
  }

  /** Padding with `ws` elements on both sides does not change what stripping leaves. */
  lemma StripAround<T>(w1: seq<T>, x: seq<T>, w2: seq<T>, ws: T -> bool)
    requires AllBy(w1, ws) && AllBy(w2, ws)
    ensures StripBy(w1 + x + w2, ws) == StripBy(x, ws)
  {
    var r, a := StripBy(x, ws), LeadCount(x, ws);
    StripParts(x, ws);
    var pre, post := x[..a], x[a + |r|..];
    AllByAppend(w1, pre, ws);
    AllByAppend(post, w2, ws);
    Regroup(w1, pre, r, post, w2);
    StripPadded(w1 + pre, r, post + w2, ws);
  }

  // ---------------------------------------------------------------------
  // Case mapping

  /** `str.lower()` / `toLowerCase()` on ASCII, Latin-1 and the Vietnamese letters. */
  function LowerChar(c: char): (d: char)
    ensures IsAsciiDigit(c) <==> IsAsciiDigit(d)
  {
    if 'A' <= c <= 'Z' then (c as int + 32) as char
    else if ('À' <= c <= 'Þ') && c != '×' then (c as int + 32) as char
    else if c == 'Ă' || c == 'Đ' || c == 'Ĩ' || c == 'Ũ' || c == 'Ơ'
    then (c as int + 1) as char
    else if c == 'Ư' then 'ư'
    else if ('Ạ' <= c <= 'Ỹ') && (c as int) % 2 == 0 then (c as int + 1) as char
    else if c == '\U{212A}' then 'k'
    else if c == '\U{212B}' then '\U{00E5}'
    else c
  }

  /** `str.upper()` on ASCII, Latin-1 and the Vietnamese letters. */
  function UpperChar(c: char): char {
    if 'a' <= c <= 'z' then (c as int - 32) as char
    else if ('à' <= c <= 'þ') && c != '÷' then (c as int - 32) as char
    else if c == 'ă' || c == 'đ' || c == 'ĩ' || c == 'ũ' || c == 'ơ'
    then (c as int - 1) as char
    else if c == 'ư' then 'Ư'
    else if ('ạ' <= c <= 'ỹ') && (c as int) % 2 == 1 then (c as int - 1) as char
    else if c == 'ı' then 'I'
    else if c == 'ſ' then 'S'
    else c
  }

  function Lower(s: string): (r: string)
    ensures |r| == |s| && forall i :: 0 <= i < |s| ==> r[i] == LowerChar(s[i])
  {
    seq(|s|, i requires 0 <= i < |s| => LowerChar(s[i]))
  }

  function Upper(s: string): (r: string)
    ensures |r| == |s| && forall i :: 0 <= i < |s| ==> r[i] == UpperChar(s[i])
  {
    seq(|s|, i requires 0 <= i < |s| => UpperChar(s[i]))
  }

  lemma LowerIdempotent(s: string)
    ensures Lower(Lower(s)) == Lower(s)
  {
  }

  // ---------------------------------------------------------------------
  // Splitting, joining, replacing

  /** Python `c * n`: `n` copies of `x`. */
  function Repeat<T>(x: T, n: nat): (r: seq<T>)
    ensures |r| == n && forall k :: 0 <= k < n ==> r[k] == x
  {
    seq(n, _ => x)
  }

  /** Glue `parts` together with `sep` between neighbours (Python `sep.join`, JavaScript `join`). */
  function Join<T>(parts: seq<seq<T>>, sep: seq<T>): seq<T> {
    if |parts| == 0 then []
    else if |parts| == 1 then parts[0]
    else parts[0] + sep + Join(parts[1..], sep)
  }

  lemma JoinCons<T>(head: seq<T>, tail: seq<seq<T>>, sep: seq<T>)
    requires |tail| > 0
    ensures Join([head] + tail, sep) == head + sep + Join(tail, sep)
  {
    assert ([head] + tail)[1..] == tail;
  }

  /** Joining two non-empty lists one after the other puts one separator between them. */
  lemma {:induction false} JoinAppend<T>(a: seq<seq<T>>, b: seq<seq<T>>, sep: seq<T>)
    requires a != [] && b != []
    ensures Join(a + b, sep) == Join(a, sep) + sep + Join(b, sep)
    decreases |a|
  {
    assert a + b == [a[0]] + (a[1..] + b);
    JoinCons(a[0], a[1..] + b, sep);
    if |a| > 1 {
      JoinAppend(a[1..], b, sep);
      JoinCons(a[0], a[1..], sep);
      assert a == [a[0]] + a[1..];
    }
  }

  /** JavaScript `s.split(sep)` / Python `s.split(sep)` for a non-empty separator. */
  function SplitOn<T(==)>(s: seq<T>, sep: seq<T>): (r: seq<seq<T>>)
    requires |sep| > 0
    ensures |r| >= 1
    decreases |s|
  {
    match Find(s, sep)
    case None => [s]
    case Some(i) => [s[..i]] + SplitOn(s[i + |sep|..], sep)
  }

  /** Splitting and joining with the same separator give back the input. */
  lemma {:induction false} JoinSplitOn<T>(s: seq<T>, sep: seq<T>)
    requires |sep| > 0
    ensures Join(SplitOn(s, sep), sep) == s
    decreases |s|
  {
    if Find(s, sep).Some? {
      var i := Find(s, sep).value;
      var rest := s[i + |sep|..];
      JoinSplitOn(rest, sep);
      SplitOnFound(s, sep, i);
      JoinCons(s[..i], SplitOn(rest, sep), sep);
    }
  }

  /** One step of a split: the text before the first separator, then the rest. */
  lemma SplitOnFound<T>(s: seq<T>, sep: seq<T>, i: nat)
    requires |sep| > 0 && Find(s, sep) == Some(i)
    ensures i + |sep| <= |s|
    ensures SplitOn(s, sep) == [s[..i]] + SplitOn(s[i + |sep|..], sep)
    ensures s == s[..i] + sep + s[i + |sep|..]
  {
    assert s[i..i + |sep|] == sep;
    assert s == s[..i] + s[i..i + |sep|] + s[i + |sep|..];
  }

  /** No piece of a split contains the separator. */
  lemma {:induction false} SplitOnPiecesFree<T>(s: seq<T>, sep: seq<T>, k: nat)
    requires |sep| > 0 && k < |SplitOn(s, sep)|
    ensures !Contains(SplitOn(s, sep)[k], sep)
    decreases |s|
  {
    match Find(s, sep)
    case None =>
    case Some(i) =>
      if k == 0 {
        if Contains(s[..i], sep) {
          var j := Find(s[..i], sep).value;
          OccursInPrefix(s, sep, i, j);
        }
      } else {
        SplitOnPiecesFree(s[i + |sep|..], sep, k - 1);
      }
  }

  /** A text without the element `c` is one piece. */
  lemma SplitWithout<T>(b: seq<T>, c: T)
    requires forall i :: 0 <= i < |b| ==> b[i] != c
    ensures SplitOn(b, [c]) == [b]
  {
    forall j | 0 <= j <= |b| ensures !OccursAt(b, [c], j) {
      if j < |b| {
        NotAtForeign(b, [c], j, j);
      }
    }
  }

  /** Splitting on `c` after a first piece without `c`. */
  lemma SplitAtFirst<T>(a: seq<T>, c: T, b: seq<T>)
    requires forall i :: 0 <= i < |a| ==> a[i] != c
    ensures SplitOn(a + [c] + b, [c]) == [a] + SplitOn(b, [c])
  {
    var s := a + [c] + b;
    assert OccursAt(s, [c], |a|) by { assert s[|a|..|a| + 1] == [c]; }
    forall j | 0 <= j < |a| ensures !OccursAt(s, [c], j) {
      assert s[j] == a[j];
      NotAtForeign(s, [c], j, j);
    }
    FindFromIs(s, [c], 0, |a|);
    SplitOnFound(s, [c], |a|);
    assert s[..|a|] == a;
    assert s[|a| + 1..] == b;
  }

  /** The last piece of a split on `c` is what follows the last `c`. */
  lemma {:induction false} SplitLastPiece<T>(a: seq<T>, c: T, b: seq<T>)
    requires forall i :: 0 <= i < |b| ==> b[i] != c
    ensures var r := SplitOn(a + [c] + b, [c]); r[|r| - 1] == b
    decreases |a|
  {
    SplitWithout(b, c);
    match Find(a, [c])
    case None =>
      forall i | 0 <= i < |a| ensures a[i] != c {
        assert !OccursAt(a, [c], i) && a[i..i + 1] == [a[i]];
      }
      SplitAtFirst(a, c, b);
    case Some(k) =>
      assert a[k..k + 1] == [c];
      forall i | 0 <= i < k ensures a[i] != c {
        assert !OccursAt(a, [c], i) && a[i..i + 1] == [a[i]];
      }
      var rest := a[k + 1..];
      assert a + [c] + b == a[..k] + [c] + (rest + [c] + b);
      SplitAtFirst(a[..k], c, rest + [c] + b);
      SplitLastPiece(rest, c, b);
  }

  /** Python `s.replace(p, q)` for a non-empty `p`: left-to-right, non-overlapping. */
  function ReplaceAll<T(==)>(s: seq<T>, p: seq<T>, q: seq<T>): (r: seq<T>)
    requires |p| > 0
    ensures r == Join(SplitOn(s, p), q)
    decreases |s|
  {
    match Find(s, p)
    case None => s
    case Some(i) => s[..i] + q + ReplaceAll(s[i + |p|..], p, q)
  }

  /** Replacement of one character by another everywhere (Python `replace` of single characters). */
  function ReplaceChar(s: string, a: char, b: char): (r: string)
    ensures |r| == |s|
    ensures forall i :: 0 <= i < |s| ==> r[i] == (if s[i] == a then b else s[i])
  {
    seq(|s|, i requires 0 <= i < |s| => if s[i] == a then b else s[i])
  }

  /** The line boundaries of Python `str.splitlines()`. */
  predicate IsLineBreak(c: char) {
    c == '\n' || c == '\r' || c == '\U{000B}' || c == '\U{000C}' || c == '\U{001C}' || c == '\U{001D}' || c == '\U{001E}'
    || c == '\U{0085}' || c == '\U{2028}' || c == '\U{2029}'
  }

  /** The first line boundary at or after `i`, or `|s|`. */
  function LineEnd(s: string, i: nat): (j: nat)
    requires i <= |s|
    ensures i <= j <= |s|
    ensures forall k :: i <= k < j ==> !IsLineBreak(s[k])
    ensures j < |s| ==> IsLineBreak(s[j])
    decreases |s| - i
  {
    if i == |s| || IsLineBreak(s[i]) then i else LineEnd(s, i + 1)
  }

  /** Python `s.splitlines()`: the lines without their boundaries, "\r\n"
      counting as one boundary, and no empty line after a final boundary. */
  function SplitLines(s: string): (r: seq<string>)
    ensures forall k, j :: 0 <= k < |r| && 0 <= j < |r[k]| ==> !IsLineBreak(r[k][j])
    decreases |s|
  {
    if s == [] then []
    else
      var j := LineEnd(s, 0);
      if j == |s| then [s]
      else
        var next := if s[j] == '\r' && j + 1 < |s| && s[j + 1] == '\n' then j + 2 else j + 1;
        [s[..j]] + SplitLines(s[next..])
  }

  // ---------------------------------------------------------------------
  // Python str.split() with no argument

  /** The number of leading elements that do NOT satisfy `ws`. */
  function RunCount<T>(s: seq<T>, ws: T -> bool): (n: nat)
    ensures n <= |s|
    ensures forall k :: 0 <= k < n ==> !ws(s[k])
    ensures n < |s| ==> ws(s[n])
  {
    if s == [] || ws(s[0]) then 0 else 1 + RunCount(s[1..], ws)
  }

  /** Maximal runs of non-`ws` elements, in order. */
  function WordsBy<T>(s: seq<T>, ws: T -> bool): (r: seq<seq<T>>)
    ensures forall i :: 0 <= i < |r| ==> r[i] != []
    ensures forall i, k :: 0 <= i < |r| && 0 <= k < |r[i]| ==> !ws(r[i][k])
    decreases |s|
  {
    var a := LeadCount(s, ws);
    if a == |s| then []
    else
      var t := s[a..];
      var n := RunCount(t, ws);
      [t[..n]] + WordsBy(t[n..], ws)
  }

  /** Python `s.split()`. */
  function Words(s: string): seq<string> {
    WordsBy(s, IsPySpace)
  }

  /** The elements of `s` that do not satisfy `ws`, in order. */
  function Keep<T>(s: seq<T>, ws: T -> bool): seq<T> {
    if s == [] then [] else (if ws(s[0]) then [] else [s[0]]) + Keep(s[1..], ws)
  }

  function Concat<T>(parts: seq<seq<T>>): seq<T> {
    if parts == [] then [] else parts[0] + Concat(parts[1..])
  }

  /** The pieces `f(x)` of the elements, one after the other. */
  function FlatMap<A, B>(xs: seq<A>, f: A -> seq<B>): seq<B>
    decreases |xs|
  {
    if xs == [] then [] else FlatMap(xs[..|xs| - 1], f) + f(xs[|xs| - 1])
  }

  /** Every element of the whole comes from the piece of some element. */
  lemma {:induction false} FlatMapFrom<A, B>(xs: seq<A>, f: A -> seq<B>, y: B) returns (k: nat)
    requires y in FlatMap(xs, f)
    ensures k < |xs| && y in f(xs[k])
    decreases |xs|
  {
    var n := |xs| - 1;
    if y in FlatMap(xs[..n], f) {
      k := FlatMapFrom(xs[..n], f, y);
      assert xs[..n][k] == xs[k];
    } else {
      k := n;
    }
  }

  /** Every element of every piece is in the whole. */
  lemma {:induction false} FlatMapAll<A, B>(xs: seq<A>, f: A -> seq<B>, k: nat, y: B)
    requires k < |xs| && y in f(xs[k])
    ensures y in FlatMap(xs, f)
    decreases |xs|
  {
    var n := |xs| - 1;
    if k < n {
      assert xs[..n][k] == xs[k];
      FlatMapAll(xs[..n], f, k, y);
    }
  }

  lemma {:induction false} KeepAppend<T>(a: seq<T>, b: seq<T>, ws: T -> bool)
    ensures Keep(a + b, ws) == Keep(a, ws) + Keep(b, ws)
  {
    if a != [] {
      assert (a + b)[1..] == a[1..] + b;
      KeepAppend(a[1..], b, ws);
    } else {
      assert a + b == b;
    }
  }

  lemma {:induction false} KeepAllWs<T>(s: seq<T>, ws: T -> bool)
    requires forall k :: 0 <= k < |s| ==> ws(s[k])
    ensures Keep(s, ws) == []
  {
    if s != [] { KeepAllWs(s[1..], ws); }
  }

  lemma {:induction false} KeepNoWs<T>(s: seq<T>, ws: T -> bool)
    requires forall k :: 0 <= k < |s| ==> !ws(s[k])
    ensures Keep(s, ws) == s
  {
    if s != [] { KeepNoWs(s[1..], ws); }
  }

  /** The leading whitespace contributes nothing to `Keep`. */
  lemma KeepSkipsLead<T>(s: seq<T>, ws: T -> bool)
    ensures Keep(s, ws) == Keep(s[LeadCount(s, ws)..], ws)
  {
    var a := LeadCount(s, ws);
    assert s == s[..a] + s[a..];
    KeepAppend(s[..a], s[a..], ws);
    KeepAllWs(s[..a], ws);
  }

  /** A leading word is kept whole. */
  lemma KeepLeadWord<T>(t: seq<T>, ws: T -> bool)
    ensures Keep(t, ws) == t[..RunCount(t, ws)] + Keep(t[RunCount(t, ws)..], ws)
  {
    var n := RunCount(t, ws);
    assert t == t[..n] + t[n..];
    KeepAppend(t[..n], t[n..], ws);
    KeepNoWs(t[..n], ws);
  }

  /** `LeadCount` of a run of `ws` elements followed by something else. */
  lemma {:induction false} LeadCountAppend<T>(a: seq<T>, b: seq<T>, ws: T -> bool)
    requires AllBy(a, ws) && (b != [] ==> !ws(b[0]))
    ensures LeadCount(a + b, ws) == |a|
    decreases |a|
  {
    if a == [] {
      assert a + b == b;
    } else {
      assert (a + b)[1..] == a[1..] + b;
      LeadCountAppend(a[1..], b, ws);
    }
  }

  /** `RunCount` of a run without `ws` elements followed by a `ws` one. */
  lemma {:induction false} RunCountAppend<T>(a: seq<T>, b: seq<T>, ws: T -> bool)
    requires (forall k :: 0 <= k < |a| ==> !ws(a[k])) && (b != [] ==> ws(b[0]))
    ensures RunCount(a + b, ws) == |a|
    decreases |a|
  {
    if a == [] {
      assert a + b == b;
    } else {
      assert (a + b)[1..] == a[1..] + b;
      RunCountAppend(a[1..], b, ws);
    }
  }

  /** The words, glued together, are exactly the non-whitespace characters. */
  lemma {:induction false} WordsCoverText<T>(s: seq<T>, ws: T -> bool)
    ensures Concat(WordsBy(s, ws)) == Keep(s, ws)
    decreases |s|
  {
    var a := LeadCount(s, ws);
    KeepSkipsLead(s, ws);
    if a < |s| {
      var t := s[a..];
      var n := RunCount(t, ws);
      KeepLeadWord(t, ws);
      WordsCoverText(t[n..], ws);
      assert WordsBy(s, ws) == [t[..n]] + WordsBy(t[n..], ws);
      assert ([t[..n]] + WordsBy(t[n..], ws))[1..] == WordsBy(t[n..], ws);
    } else {
      assert s[a..] == [];
    }
  }

  /** Leading `ws` elements start no word. */
  lemma WordsSkipLead<T>(s: seq<T>, ws: T -> bool)
    ensures WordsBy(s, ws) == WordsBy(s[LeadCount(s, ws)..], ws)
  {
    var u := s[LeadCount(s, ws)..];
    assert LeadCount(u, ws) == 0;
    assert u[0..] == u;
  }

  /** One more `ws` element in front changes no word. */
  lemma WordsAfterSpace<T>(x: T, t: seq<T>, ws: T -> bool)
    requires ws(x)
    ensures WordsBy([x] + t, ws) == WordsBy(t, ws)
  {
    var s := [x] + t;
    assert s[1..] == t;
    assert LeadCount(s, ws) == 1 + LeadCount(t, ws);
    assert s[1 + LeadCount(t, ws)..] == t[LeadCount(t, ws)..];
  }

  /** One more non-`ws` element in front starts a new word, or joins the
      first word when that begins right after it. */
  lemma WordsAfterLetter<T>(c: T, t: seq<T>, ws: T -> bool)
    requires !ws(c)
    ensures WordsBy([c] + t, ws)
            == if t == [] || ws(t[0]) then [[c]] + WordsBy(t, ws)
               else [[c] + WordsBy(t, ws)[0]] + WordsBy(t, ws)[1..]
  {
    var s := [c] + t;
    assert s[1..] == t;
    assert LeadCount(s, ws) == 0 && s[0..] == s;
    var m := RunCount(t, ws);
    assert RunCount(s, ws) == 1 + m;
    assert s[..1 + m] == [c] + t[..m];
    assert s[1 + m..] == t[m..];
    if t != [] && !ws(t[0]) {
      assert LeadCount(t, ws) == 0 && t[0..] == t;
    }
  }

  /** Texts with the same words that both start with, or both without, a
      `ws` element keep the same words behind one more non-`ws` element. */
  lemma WordsAfterSameLetter<T>(c: T, x: seq<T>, y: seq<T>, ws: T -> bool)
    requires !ws(c) && WordsBy(x, ws) == WordsBy(y, ws)
    requires (x == []) == (y == []) && (x != [] ==> (ws(x[0]) <==> ws(y[0])))
    ensures WordsBy([c] + x, ws) == WordsBy([c] + y, ws)
  {
    WordsAfterLetter(c, x, ws);
    WordsAfterLetter(c, y, ws);
  }

  // ---------------------------------------------------------------------
  // Numbers

  function DigitChar(d: nat): char
    requires d < 10
  {
    ('0' as int + d) as char
  }

  /** Python `str(n)` / JavaScript `String(n)` for a natural number. */
  function NatToString(n: nat): (r: string)
    ensures |r| > 0 && forall i :: 0 <= i < |r| ==> IsAsciiDigit(r[i])
    ensures |r| > 1 ==> r[0] != '0'
  {
    if n < 10 then [DigitChar(n)] else NatToString(n / 10) + [DigitChar(n % 10)]
  }

  /** The value of a non-empty run of ASCII digits. */
  function DigitValue(c: char): nat
    requires IsAsciiDigit(c)
  {
    c as int - '0' as int
  }

  /** The value of a run of ASCII digits, most significant first. */
  function DigitsValue(s: string): nat
    requires forall i :: 0 <= i < |s| ==> IsAsciiDigit(s[i])
  {
    if s == [] then 0 else 10 * DigitsValue(s[..|s| - 1]) + DigitValue(s[|s| - 1])
  }

  predicate AllDigits(s: string) {
    |s| > 0 && forall i :: 0 <= i < |s| ==> IsAsciiDigit(s[i])
  }

  /** Decimal rendering and digit-string reading are inverse. */
  lemma {:induction false} NatToStringValue(n: nat)
    ensures DigitsValue(NatToString(n)) == n
  {
    if n >= 10 {
      NatToStringValue(n / 10);
      var s := NatToString(n);
      assert s[..|s| - 1] == NatToString(n / 10);
    }
  }

  /** Decimal rendering is injective (ids built from distinct counters differ). */
  lemma NatToStringInjective(m: nat, n: nat)
    requires NatToString(m) == NatToString(n)
    ensures m == n
  {
    NatToStringValue(m);
    NatToStringValue(n);
  }

  /** Python `int(s)` on text: surrounding whitespace, an optional sign, ASCII digits. */
  function PyInt(s: string): (r: Option<int>)
    ensures r.Some? ==> |PyStrip(s)| > 0
  {
    var t := PyStrip(s);
    if AllDigits(t) then Some(DigitsValue(t))
    else if |t| > 1 && (t[0] == '+' || t[0] == '-') && AllDigits(t[1..]) then
      var v: int := DigitsValue(t[1..]);
      Some(if t[0] == '-' then -v else v)
    else None
  }

  lemma PyIntOfNat(n: nat)
    ensures PyInt(NatToString(n)) == Some(n)
  {
    var s := NatToString(n);
    assert LeadCount(s, IsPySpace) == 0;
    assert TrailCount(s, IsPySpace) == 0;
    assert s[0..][..|s[0..]| - 0] == s;
    NatToStringValue(n);
  }

  /** JavaScript `parseInt(s)` in base 10: leading whitespace, optional sign, the
      longest digit prefix; None stands for NaN. */
  function JsParseInt(s: string): (r: Option<int>)
    ensures r.Some? ==> |s| > 0
  {
    var t := s[LeadCount(s, IsJsSpace)..];
    var neg := |t| > 0 && t[0] == '-';
    var u := if |t| > 0 && (t[0] == '-' || t[0] == '+') then t[1..] else t;
    var n := RunCount(u, c => !IsAsciiDigit(c));
    if n == 0 then None
    else
      var v: int := DigitsValue(u[..n]);
      Some(if neg then -v else v)
  }

  /** `parseInt` of a text that starts with `k` digits reads those digits. */
  lemma JsParseIntDigits(s: string, k: nat)
    requires 0 < k <= |s| && AllDigits(s[..k]) && (k < |s| ==> !IsAsciiDigit(s[k]))
    ensures JsParseInt(s) == Some(DigitsValue(s[..k]) as int)
  {
    assert s[..k][0] == s[0];
    assert LeadCount(s, IsJsSpace) == 0;
    assert s[0..] == s;
    var n := RunCount(s, c => !IsAsciiDigit(c));
    assert forall i :: 0 <= i < k ==> s[..k][i] == s[i];
    RunCountIs(s, c => !IsAsciiDigit(c), k);
  }

  /** The leading run of non-`ws` elements has length `k` when the first `k`
      elements are not `ws` and the next one is. */
  lemma {:induction false} RunCountIs<T>(s: seq<T>, ws: T -> bool, k: nat)
    requires k <= |s| && (forall i :: 0 <= i < k ==> !ws(s[i])) && (k < |s| ==> ws(s[k]))
    ensures RunCount(s, ws) == k
    decreases k
  {
    if k > 0 {
      RunCountIs(s[1..], ws, k - 1);
    }
  }

  /** `parseInt` of a decimal rendering followed by a non-digit reads the number. */
  lemma JsParseIntOfNat(n: nat, rest: string)
    requires rest == [] || !IsAsciiDigit(rest[0])
    ensures JsParseInt(NatToString(n) + rest) == Some(n)
  {
    var d := NatToString(n);
    var s := d + rest;
    assert s[..|d|] == d;
    NatToStringValue(n);
    JsParseIntDigits(s, |d|);
  }

  /** JavaScript `String(n).padStart(2, '0')` for a natural number. */
  function Pad2(n: nat): (r: string)
    ensures |r| >= 2 && forall k :: 0 <= k < |r| ==> IsAsciiDigit(r[k])
  {
    var s := NatToString(n);
    if |s| < 2 then ['0'] + s else s
  }
}
