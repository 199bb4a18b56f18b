/** The hand-written MD5 of the Threads scraper (RFC 1321). JavaScript's
    bitwise operators see the 32-bit pattern of a number, so every word is a
    `bv32` here: `add32`'s `(a + b) & 0xFFFFFFFF` is addition modulo 2^32, the
    signed constants of the source are their 32-bit patterns, and `>>>` is the
    logical shift `>>` of a bit-vector. The input is the sequence of UTF-16
    code units `charCodeAt` reads. */
module Md5 {
  type Word = bv32

  /** A UTF-16 code unit, what `charCodeAt` returns. */
  type CodeUnit = bv16

  /** The 32-bit pattern of an integer, as the bitwise operators see it. */
  function Bits(n: int): Word {
    (n % 0x1_0000_0000) as bv32
  }

  // ---------------------------------------------------------------------
  // md5cycle

  /** The four auxiliary functions of section 3.4 of RFC 1321. */
  datatype Round = F | G | H | I

  function Aux(round: Round, b: Word, c: Word, d: Word): Word {
    match round
    case F => (b & c) | (!b & d)
    case G => (b & d) | (c & !d)
    case H => b ^ c ^ d
    case I => c ^ (b | !d)
  }

  /** `add32`: `(a + b) & 0xFFFFFFFF`, addition modulo 2^32. */
  function Add32(a: Word, b: Word): Word {
    a + b
  }

  /** `|`, as `tail[i >> 2] |= ...` uses it. */
  function Or32(a: Word, b: Word): Word {
    a | b
  }

  /** `cmn`: add, rotate left by `s`, add `b`. */
  function Cmn(q: Word, a: Word, b: Word, x: Word, s: Word, t: Word): Word
    requires 0 < s < 32
  {
    var e := Add32(Add32(a, q), Add32(x, t));
    Add32((e << s) | (e >> (32 - s)), b)
  }

  type MsgIndex = i: nat | i < 16
  type Rotation = s: Word | 0 < s < 32 witness 1

  /** One of the 64 calls of `md5cycle`: the function used, the message word
      `k[index]`, the rotation and the constant, written here as the 32-bit
      pattern of the signed decimal in the source (-680876936 is 0xd76aa478). */
  datatype Row = Row(round: Round, index: MsgIndex, shift: Rotation, constant: Word)

  /** The 64 calls of `md5cycle`, in the order the source makes them. */
  const Table: seq<Row> := [
      Row(F, 0, 7, 0xd76aa478), Row(F, 1, 12, 0xe8c7b756), Row(F, 2, 17, 0x242070db), Row(F, 3, 22, 0xc1bdceee),
      Row(F, 4, 7, 0xf57c0faf), Row(F, 5, 12, 0x4787c62a), Row(F, 6, 17, 0xa8304613), Row(F, 7, 22, 0xfd469501),
      Row(F, 8, 7, 0x698098d8), Row(F, 9, 12, 0x8b44f7af), Row(F, 10, 17, 0xffff5bb1), Row(F, 11, 22, 0x895cd7be),
      Row(F, 12, 7, 0x6b901122), Row(F, 13, 12, 0xfd987193), Row(F, 14, 17, 0xa679438e), Row(F, 15, 22, 0x49b40821),
      Row(G, 1, 5, 0xf61e2562), Row(G, 6, 9, 0xc040b340), Row(G, 11, 14, 0x265e5a51), Row(G, 0, 20, 0xe9b6c7aa),
      Row(G, 5, 5, 0xd62f105d), Row(G, 10, 9, 0x02441453), Row(G, 15, 14, 0xd8a1e681), Row(G, 4, 20, 0xe7d3fbc8),
      Row(G, 9, 5, 0x21e1cde6), Row(G, 14, 9, 0xc33707d6), Row(G, 3, 14, 0xf4d50d87), Row(G, 8, 20, 0x455a14ed),
      Row(G, 13, 5, 0xa9e3e905), Row(G, 2, 9, 0xfcefa3f8), Row(G, 7, 14, 0x676f02d9), Row(G, 12, 20, 0x8d2a4c8a),
      Row(H, 5, 4, 0xfffa3942), Row(H, 8, 11, 0x8771f681), Row(H, 11, 16, 0x6d9d6122), Row(H, 14, 23, 0xfde5380c),
      Row(H, 1, 4, 0xa4beea44), Row(H, 4, 11, 0x4bdecfa9), Row(H, 7, 16, 0xf6bb4b60), Row(H, 10, 23, 0xbebfbc70),
      Row(H, 13, 4, 0x289b7ec6), Row(H, 0, 11, 0xeaa127fa), Row(H, 3, 16, 0xd4ef3085), Row(H, 6, 23, 0x04881d05),
      Row(H, 9, 4, 0xd9d4d039), Row(H, 12, 11, 0xe6db99e5), Row(H, 15, 16, 0x1fa27cf8), Row(H, 2, 23, 0xc4ac5665),
      Row(I, 0, 6, 0xf4292244), Row(I, 7, 10, 0x432aff97), Row(I, 14, 15, 0xab9423a7), Row(I, 5, 21, 0xfc93a039),
      Row(I, 12, 6, 0x655b59c3), Row(I, 3, 10, 0x8f0ccc92), Row(I, 10, 15, 0xffeff47d), Row(I, 1, 21, 0x85845dd1),
      Row(I, 8, 6, 0x6fa87e4f), Row(I, 15, 10, 0xfe2ce6e0), Row(I, 6, 15, 0xa3014314), Row(I, 13, 21, 0x4e0811a1),
      Row(I, 4, 6, 0xf7537e82), Row(I, 11, 10, 0xbd3af235), Row(I, 2, 15, 0x2ad7d2bb), Row(I, 9, 21, 0xeb86d391)
    ]

  /** The locals a, b, c, d of `md5cycle`. */
  datatype Quad = Quad(a: Word, b: Word, c: Word, d: Word)

  /** `ff`/`gg`/`hh`/`ii` of a row on (a, b, c, d). */
  function Apply(row: Row, a: Word, b: Word, c: Word, d: Word, k: seq<Word>): Word
    requires |k| == 16
  {
    Cmn(Aux(row.round, b, c, d), a, b, k[row.index], row.shift, row.constant)
  }

  /** Call `j` of `md5cycle`: calls 0, 4, 8, ... update a; 1, 5, ... update d
      with the arguments turned one place (d, a, b, c); then c and b likewise. */
  function Step(q: Quad, j: nat, k: seq<Word>): Quad
    requires j < 64 && |k| == 16
  {
    var row := Table[j];
    if j % 4 == 0 then q.(a := Apply(row, q.a, q.b, q.c, q.d, k))
    else if j % 4 == 1 then q.(d := Apply(row, q.d, q.a, q.b, q.c, k))
    else if j % 4 == 2 then q.(c := Apply(row, q.c, q.d, q.a, q.b, k))
    else q.(b := Apply(row, q.b, q.c, q.d, q.a, k))
  }

  /** The locals after the first `j` calls. */
  function Rounds(q: Quad, k: seq<Word>, j: nat): Quad
    requires j <= 64 && |k| == 16
  {
    if j == 0 then q else Step(Rounds(q, k, j - 1), j - 1, k)
  }

  /** What `md5cycle(x, k)` leaves in `x`: the 64 calls, then each local added
      to the word it started from. */
  function CycleOf(x: seq<Word>, k: seq<Word>): (r: seq<Word>)
    requires |x| == 4 && |k| == 16
    ensures |r| == 4
  {
    var q := Rounds(Quad(x[0], x[1], x[2], x[3]), k, 64);
    [Add32(q.a, x[0]), Add32(q.b, x[1]), Add32(q.c, x[2]), Add32(q.d, x[3])]
  }

  /** `md5cycle`: the state array is overwritten in place. */
  method Cycle(x: array<Word>, k: seq<Word>)
    requires x.Length == 4 && |k| == 16
    modifies x
    ensures x[..] == CycleOf(old(x[..]), k)
  {
    ghost var before := x[..];
    var q := Quad(x[0], x[1], x[2], x[3]);
    ghost var start := q;
    var j := 0;
    while j < 64
      invariant j <= 64 && q == Rounds(start, k, j)
    {
      q := Step(q, j, k);
      j := j + 1;
    }
    assert j == 64;
    var r := [Add32(q.a, x[0]), Add32(q.b, x[1]), Add32(q.c, x[2]), Add32(q.d, x[3])];
    assert x[0] == before[0] && x[1] == before[1] && x[2] == before[2] && x[3] == before[3];
    CycleAfter(before, k, q);
    Store(x, r);
  }

  lemma CycleAfter(x: seq<Word>, k: seq<Word>, q: Quad)
    requires |x| == 4 && |k| == 16 && q == Rounds(Quad(x[0], x[1], x[2], x[3]), k, 64)
    ensures CycleOf(x, k) == [Add32(q.a, x[0]), Add32(q.b, x[1]), Add32(q.c, x[2]), Add32(q.d, x[3])]
  {
  }

  /** `x[0] = ...; x[1] = ...; x[2] = ...; x[3] = ...`. */
  method Store(x: array<Word>, r: seq<Word>)
    requires x.Length == 4 && |r| == 4
    modifies x
    ensures x[..] == r
  {
    x[0], x[1], x[2], x[3] := r[0], r[1], r[2], r[3];
    assert x[..] == [r[0], r[1], r[2], r[3]];
  }

  // ---------------------------------------------------------------------
  // md5blk and md51

  /** `charCodeAt(i)` moved to byte lane `lane` of a word, as `<<` does. */
  function Lane(c: CodeUnit, lane: nat): Word
    requires lane < 4
  {
    var v := c as bv32;
    if lane == 0 then v else if lane == 1 then v << 8 else if lane == 2 then v << 16 else v << 24
  }

  /** The word `md5blk` builds from four code units: they are ADDED, each
      shifted to its lane (the tail of `md51` ORs them instead). */
  function Pack(s: seq<CodeUnit>, i: nat): Word
    requires i + 4 <= |s|
  {
    Add32(Add32(Add32(Lane(s[i], 0), Lane(s[i + 1], 1)), Lane(s[i + 2], 2)), Lane(s[i + 3], 3))
  }

  /** The sixteen words of a 64-unit block. */
  function BlockWords(s: seq<CodeUnit>): (r: seq<Word>)
    requires |s| == 64
    ensures |r| == 16
  {
    Words(s, 16)
  }

  /** The first `w` words of a block. */
  function Words(s: seq<CodeUnit>, w: nat): (r: seq<Word>)
    requires |s| == 64 && w <= 16
    ensures |r| == w && forall v :: 0 <= v < w ==> r[v] == Pack(s, 4 * v)
  {
    if w == 0 then [] else Words(s, w - 1) + [Pack(s, 4 * (w - 1))]
  }

  /** `md5blk`. */
  method Md5Blk(s: seq<CodeUnit>) returns (r: seq<Word>)
    requires |s| == 64
    ensures r == BlockWords(s)
  {
    var blks := new Word[16];
    var i := 0;
    while i < 64
      invariant i % 4 == 0 && i <= 64
      invariant forall w :: 0 <= w < i / 4 ==> blks[w] == Pack(s, 4 * w)
    {
      blks[i / 4] := Pack(s, i);
      i := i + 4;
    }
    r := blks[..];
    assert r == Words(s, 16);
  }

  const Zeros: seq<Word> := [0, 0, 0, 0, 0, 0, 0, 0, 0, 0, 0, 0, 0, 0, 0, 0]

  /** The tail array after its first `j` code units were ORed in. */
  function TailFill(rest: seq<CodeUnit>, j: nat): (r: seq<Word>)
    requires j <= |rest| < 64
    ensures |r| == 16
  {
    if j == 0 then Zeros
    else
      var t := TailFill(rest, j - 1);
      t[(j - 1) / 4 := Or32(t[(j - 1) / 4], Lane(rest[j - 1], (j - 1) % 4))]
  }

  /** The tail array with the 0x80 marker after the last code unit. */
  function Marked(rest: seq<CodeUnit>): (r: seq<Word>)
    requires |rest| < 64
    ensures |r| == 16
  {
    var r := |rest|;
    var t := TailFill(rest, r);
    t[r / 4 := Or32(t[r / 4], Lane(0x80, r % 4))]
  }

  /** The last one or two blocks `md51` compresses: the marked tail, and the
      length `n * 8` in word 14, on a block of its own when the tail is longer
      than 55 code units. */
  function TailBlocks(rest: seq<CodeUnit>, n: nat): (r: seq<seq<Word>>)
    requires |rest| < 64
    ensures |r| == (if |rest| > 55 then 2 else 1)
    ensures forall b :: 0 <= b < |r| ==> |r[b]| == 16
  {
    var t := Marked(rest);
    if |rest| > 55 then [t, Zeros[14 := Bits(n * 8)]] else [t[14 := Bits(n * 8)]]
  }

  /** The words of the first `m` full blocks. */
  function FullBlocks(s: seq<CodeUnit>, m: nat): (r: seq<seq<Word>>)
    requires 64 * m <= |s|
    ensures |r| == m && forall b :: 0 <= b < m ==> |r[b]| == 16
  {
    if m == 0 then [] else FullBlocks(s, m - 1) + [BlockWords(s[64 * (m - 1)..64 * m])]
  }

  /** Every block `md51` compresses, in order. */
  function Blocks(s: seq<CodeUnit>): (r: seq<seq<Word>>)
    ensures forall b :: 0 <= b < |r| ==> |r[b]| == 16
  {
    var m := |s| / 64;
    FullBlocks(s, m) + TailBlocks(s[64 * m..], |s|)
  }

  /** `md51` compresses as many blocks as section 3.1 of RFC 1321 pads the
      message to: the length plus the marker byte and the 8 length bytes,
      rounded up to a multiple of 64. */
  lemma BlockCount(s: seq<CodeUnit>)
    ensures |Blocks(s)| == (|s| + 8) / 64 + 1
  {
    var m := |s| / 64;
    var r := |s| - 64 * m;
    assert (|s| + 8) / 64 == m + (r + 8) / 64 by {
      assert |s| + 8 == 64 * m + (r + 8);
    }
  }

  /** `[1732584193, -271733879, -1732584194, 271733878]`: the 32-bit patterns
      of these numbers. */
  const InitState: seq<Word> := [0x67452301, 0xefcdab89, 0x98badcfe, 0x10325476]

  /** The state after `md5cycle` on each block in turn. */
  function Compress(state: seq<Word>, blocks: seq<seq<Word>>): (r: seq<Word>)
    requires |state| == 4 && forall b :: 0 <= b < |blocks| ==> |blocks[b]| == 16
    ensures |r| == 4
  {
    if blocks == [] then state
    else CycleOf(Compress(state, blocks[..|blocks| - 1]), blocks[|blocks| - 1])
  }

  /** The state `md51` returns. */
  function Digest(s: seq<CodeUnit>): (r: seq<Word>)
    ensures |r| == 4
  {
    Compress(InitState, Blocks(s))
  }

  lemma CompressSnoc(state: seq<Word>, blocks: seq<seq<Word>>, last: seq<Word>)
    requires |state| == 4 && |last| == 16 && forall b :: 0 <= b < |blocks| ==> |blocks[b]| == 16
    ensures Compress(state, blocks + [last]) == CycleOf(Compress(state, blocks), last)
  {
    assert (blocks + [last])[..|blocks|] == blocks;
  }

  /** `md51`. */
  method Md51(s: seq<CodeUnit>) returns (state: seq<Word>)
    ensures state == Digest(s)
  {
    var st := new Word[4];
    st[0], st[1], st[2], st[3] := 0x67452301, 0xefcdab89, 0x98badcfe, 0x10325476;
    assert st[..] == InitState;
    var i := FullLoop(st, s);
    var rest := s[i - 64..];
    var tail, j := FillTail(rest);
    if j > 55 {
      LongTail(st, tail, s, rest);
    } else {
      ShortTail(st, tail, s, rest);
    }
    state := st[..];
  }

  /** A remainder of more than 55 units: `md5cycle` on the marked tail, then
      on a cleared block holding only the length. */
  method LongTail(st: array<Word>, tail: array<Word>, s: seq<CodeUnit>, rest: seq<CodeUnit>)
    requires st.Length == 4 && tail.Length == 16 && st != tail
    requires st[..] == Compress(InitState, FullBlocks(s, |s| / 64))
    requires rest == s[64 * (|s| / 64)..] && |rest| > 55 && tail[..] == Marked(rest)
    modifies st, tail
    ensures st[..] == Digest(s)
  {
    ghost var full := FullBlocks(s, |s| / 64);
    Cycle(st, tail[..]);
    Clear(tail);
    tail[14] := Bits(|s| * 8);
    CompressTwo(InitState, full, Marked(rest), tail[..]);
    Cycle(st, tail[..]);
  }

  /** A remainder of at most 55 units: the length goes into word 14 of the
      marked tail, and one `md5cycle` ends it. */
  method ShortTail(st: array<Word>, tail: array<Word>, s: seq<CodeUnit>, rest: seq<CodeUnit>)
    requires st.Length == 4 && tail.Length == 16 && st != tail
    requires st[..] == Compress(InitState, FullBlocks(s, |s| / 64))
    requires rest == s[64 * (|s| / 64)..] && |rest| <= 55 && tail[..] == Marked(rest)
    modifies st, tail
    ensures st[..] == Digest(s)
  {
    tail[14] := Bits(|s| * 8);
    CompressSnoc(InitState, FullBlocks(s, |s| / 64), tail[..]);
    Cycle(st, tail[..]);
  }

  /** The first loop of `md51`: `md5cycle` on each full 64-unit block. */
  method FullLoop(st: array<Word>, s: seq<CodeUnit>) returns (i: nat)
    requires st.Length == 4 && st[..] == InitState
    modifies st
    ensures i == 64 * (|s| / 64) + 64
    ensures st[..] == Compress(InitState, FullBlocks(s, |s| / 64))
  {
    i := 64;
    ghost var m := 0;
    while i <= |s|
      invariant i == 64 * m + 64 && 64 * m <= |s|
      invariant st[..] == Compress(InitState, FullBlocks(s, m))
    {
      Absorb(st, s, i, m);
      i := i + 64;
      m := m + 1;
    }
    DivBlocks(|s|, m);
  }

  /** One turn of that loop: `md5cycle(state, md5blk(s.substring(i - 64, i)))`. */
  method Absorb(st: array<Word>, s: seq<CodeUnit>, i: nat, ghost m: nat)
    requires st.Length == 4 && i == 64 * m + 64 && i <= |s|
    requires st[..] == Compress(InitState, FullBlocks(s, m))
    modifies st
    ensures st[..] == Compress(InitState, FullBlocks(s, m + 1))
  {
    var k := Md5Blk(s[i - 64..i]);
    CompressSnoc(InitState, FullBlocks(s, m), k);
    Cycle(st, k);
  }

  lemma DivBlocks(n: nat, m: nat)
    requires 64 * m <= n < 64 * m + 64
    ensures m == n / 64
  {
  }

  /** The tail array of `md51`, filled with the remaining code units and the
      0x80 marker; `j` is the number of remaining units. */
  method FillTail(rest: seq<CodeUnit>) returns (tail: array<Word>, j: nat)
    requires |rest| < 64
    ensures fresh(tail) && tail.Length == 16 && tail[..] == Marked(rest) && j == |rest|
  {
    tail := new Word[16](_ => 0);
    assert tail[..] == Zeros;
    j := 0;
    while j < |rest|
      invariant j <= |rest| && tail[..] == TailFill(rest, j)
    {
      ghost var t := tail[..];
      tail[j / 4] := Or32(tail[j / 4], Lane(rest[j], j % 4));
      assert tail[..] == t[j / 4 := Or32(t[j / 4], Lane(rest[j], j % 4))];
      j := j + 1;
    }
    ghost var t := tail[..];
    tail[j / 4] := Or32(tail[j / 4], Lane(0x80, j % 4));
    assert tail[..] == t[j / 4 := Or32(t[j / 4], Lane(0x80, j % 4))];
  }

  /** `for (i = 0; i < 16; i++) tail[i] = 0`. */
  method Clear(tail: array<Word>)
    requires tail.Length == 16
    modifies tail
    ensures tail[..] == Zeros
  {
    var z := 0;
    while z < 16
      invariant z <= 16 && forall w :: 0 <= w < z ==> tail[w] == 0
    {
      tail[z] := 0;
      z := z + 1;
    }
  }

  /** Two more blocks are two more cycles. */
  lemma CompressTwo(state: seq<Word>, blocks: seq<seq<Word>>, first: seq<Word>, second: seq<Word>)
    requires |state| == 4 && |first| == 16 && |second| == 16
    requires forall b :: 0 <= b < |blocks| ==> |blocks[b]| == 16
    ensures Compress(state, blocks + [first, second])
            == CycleOf(CycleOf(Compress(state, blocks), first), second)
  {
    CompressSnoc(state, blocks, first);
    CompressSnoc(state, blocks + [first], second);
    assert blocks + [first] + [second] == blocks + [first, second];
  }

  // ---------------------------------------------------------------------
  // hex_md5

  /** A lower-case hexadecimal digit. */
  predicate IsHexDigit(c: char) {
    '0' <= c <= '9' || 'a' <= c <= 'f'
  }

  /** The digit `toString(16)` writes for a value below 16. */
  function HexDigit(v: nat): (c: char)
    requires v < 16
    ensures IsHexDigit(c)
  {
    if v < 10 then ('0' as int + v) as char else ('a' as int + v - 10) as char
  }

  /** `Number.prototype.toString(16)` of a natural number. */
  function ToString16(v: nat): (r: string)
    ensures |r| > 0 && forall i :: 0 <= i < |r| ==> IsHexDigit(r[i])
    ensures v < 256 ==> |r| <= 2
  {
    if v < 16 then [HexDigit(v)] else ToString16(v / 16) + [HexDigit(v % 16)]
  }

  /** `padStart(2, '0')`. */
  function PadStart2(t: string): (r: string)
    ensures |t| <= 2 ==> |r| == 2
  {
    if |t| < 2 then seq(2 - |t|, _ => '0') + t else t
  }

  /** Byte `j / 8` of a word, `(w >>> j) & 0xff`. */
  function ByteOf(w: Word, j: nat): (r: nat)
    requires j < 32 && j % 8 == 0
    ensures r < 256
  {
    var v := if j < 8 then w else if j < 16 then w >> 8 else if j < 24 then w >> 16 else w >> 24;
    ((v & 0xff) as bv8) as int
  }

  /** The two lower-case hex digits of a byte. */
  function ByteHex(b: nat): (r: string)
    requires b < 256
    ensures |r| == 2 && forall i :: 0 <= i < 2 ==> IsHexDigit(r[i])
  {
    PadStart2(ToString16(b))
  }

  /** A word's bytes, least significant first. */
  function WordHex(w: Word): (r: string)
    ensures |r| == 8 && forall i :: 0 <= i < 8 ==> IsHexDigit(r[i])
  {
    ByteHex(ByteOf(w, 0)) + ByteHex(ByteOf(w, 8)) + ByteHex(ByteOf(w, 16)) + ByteHex(ByteOf(w, 24))
  }

  /** The output of `hex_md5` for a state. */
  function Hex(state: seq<Word>): (r: string)
    ensures |r| == 8 * |state| && forall i :: 0 <= i < |r| ==> IsHexDigit(r[i])
  {
    if state == [] then "" else WordHex(state[0]) + Hex(state[1..])
  }

  /** `hex_md5`: 32 lower-case hex digits, the digest bytes in little-endian order. */
  method HexMd5(s: seq<CodeUnit>) returns (output: string)
    ensures output == Hex(Digest(s))
    ensures |output| == 32 && forall i :: 0 <= i < 32 ==> IsHexDigit(output[i])
  {
    var result := Md51(s);
    output := "";
    var i := 0;
    while i < 4
      invariant i <= 4 && output == Hex(result[..i])
    {
      var word := WordLoop(result[i]);
      output := Append(result[..i], result[i], output, word);
      assert result[..i + 1] == result[..i] + [result[i]];
      i := i + 1;
    }
    assert result[..4] == result;
  }

  /** The output so far followed by the hex of one more word. */
  method Append(done: seq<Word>, w: Word, output: string, word: string) returns (r: string)
    requires output == Hex(done) && word == WordHex(w)
    ensures r == Hex(done + [w])
  {
    r := output + word;
    HexSnoc(done, w);
  }

  /** The inner loop of `hex_md5`: the four bytes of a word, lowest first. */
  method WordLoop(w: Word) returns (out: string)
    ensures out == WordHex(w)
  {
    out := "";
    var j := 0;
    while j < 32
      invariant j <= 32 && j % 8 == 0
      invariant out == WordPrefix(w, j)
    {
      out := out + ByteHex(ByteOf(w, j));
      j := j + 8;
    }
    WordPrefixFull(w);
  }

  /** The hex of the bytes of `w` below bit `j`. */
  function WordPrefix(w: Word, j: nat): (r: string)
    requires j <= 32 && j % 8 == 0
    decreases j
  {
    if j == 0 then "" else WordPrefix(w, j - 8) + ByteHex(ByteOf(w, j - 8))
  }

  lemma {:induction false} HexSnoc(state: seq<Word>, w: Word)
    ensures Hex(state + [w]) == Hex(state) + WordHex(w)
    decreases |state|
  {
    if state == [] {
      assert [w][1..] == [];
    } else {
      assert (state + [w])[1..] == state[1..] + [w];
      HexSnoc(state[1..], w);
    }
  }

  lemma WordPrefixFull(w: Word)
    ensures WordPrefix(w, 32) == WordHex(w)
  {
    assert WordPrefix(w, 8) == ByteHex(ByteOf(w, 0));
    assert WordPrefix(w, 16) == ByteHex(ByteOf(w, 0)) + ByteHex(ByteOf(w, 8));
    assert WordPrefix(w, 24) == ByteHex(ByteOf(w, 0)) + ByteHex(ByteOf(w, 8)) + ByteHex(ByteOf(w, 16));
  }
}
