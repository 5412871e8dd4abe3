/*
 * The uuencode decoder of src/uudecode.c (scalar build): a line-based decoder
 * of the historical uuencode stream format (IEEE Std 1003.1, `uuencode`
 * utility, "uuencode Stream Format") that writes into a caller-supplied,
 * capacity-bounded buffer.
 *
 * `Decode` is the specification: line by line, what the decoder produces.
 * `Uudecode` is the decoder itself, with its 45-byte fast path and its
 * bit-accumulator slow path, proved to write exactly `Decode`'s bytes.
 */
module UUCodec {
  import opened Base
  import opened Lines

  /**
   * `(c - 32) & 0x3f`. In C the byte is promoted to `int`, so `c - 32` is
   * negative below 32; masking a two's-complement value with 0x3f is the
   * non-negative remainder modulo 64, which is what Dafny's `%` computes.
   */
  function Sextet(c: byte): (v: nat)
    ensures v < 64
  {
    (c - 32) % 64
  }

  /**
   * Byte `r` (0, 1 or 2) of the group of four sextets a, b, c, d:
   * `(a << 2) | (b >> 4)`, `(b << 4) | (c >> 2)`, `(c << 6) | d`, each cut to
   * 8 bits. The two operands of each `|` occupy disjoint bits, so the `|` is
   * an addition, and a shift by k is a multiplication or division by 2^k.
   */
  function DecodeGroup(a: nat, b: nat, c: nat, d: nat, r: nat): byte
    requires a < 64 && b < 64 && c < 64 && d < 64 && r < 3
  {
    if r == 0 then (a * 4 + b / 16) % 256
    else if r == 1 then (b * 16 + c / 4) % 256
    else (c * 64 + d) % 256
  }

  /**
   * Sextet `k` of the data characters of a line starting at `ls` and ending
   * at `le`; a line shorter than needed reads as sextet 0 (the padding
   * character).
   */
  function LineSextet(input: seq<byte>, ls: nat, le: nat, k: nat): (v: nat)
    requires le <= |input|
    ensures v < 64
  {
    if ls + k < le then Sextet(input[ls + k]) else 0
  }

  /**
   * Decoded byte `j` of the line whose data characters start at `ls` and end
   * at `le`: the bytes of the first group of four characters, then those of
   * the line that starts four characters later.
   */
  function LineByte(input: seq<byte>, ls: nat, le: nat, j: nat): byte
    requires le <= |input|
    decreases j
  {
    if j < 3 then
      DecodeGroup(LineSextet(input, ls, le, 0), LineSextet(input, ls, le, 1),
                  LineSextet(input, ls, le, 2), LineSextet(input, ls, le, 3), j)
    else LineByte(input, ls + 4, le, j - 3)
  }

  /** Byte `r` of group `g` of a line is the group formula applied to that group's sextets. */
  lemma {:induction false} LineByteAt(input: seq<byte>, ls: nat, le: nat, g: nat, r: nat)
    requires le <= |input| && r < 3
    ensures LineByte(input, ls, le, 3 * g + r)
            == DecodeGroup(LineSextet(input, ls, le, 4 * g), LineSextet(input, ls, le, 4 * g + 1),
                           LineSextet(input, ls, le, 4 * g + 2), LineSextet(input, ls, le, 4 * g + 3), r)
    decreases g
  {
    if g > 0 {
      LineByteAt(input, ls + 4, le, g - 1, r);
      assert LineByte(input, ls, le, 3 * g + r) == LineByte(input, ls + 4, le, 3 * (g - 1) + r);
    }
  }

  /** The first `n` decoded bytes of a line. */
  function LineBytes(input: seq<byte>, ls: nat, le: nat, n: nat): (r: seq<byte>)
    requires ls <= le <= |input|
    ensures |r| == n
  {
    if n == 0 then [] else LineBytes(input, ls, le, n - 1) + [LineByte(input, ls, le, n - 1)]
  }

  /** Byte `j` of the first `n` decoded bytes is the line's decoded byte `j`. */
  lemma {:induction false} LineBytesIndex(input: seq<byte>, ls: nat, le: nat, n: nat)
    requires ls <= le <= |input|
    ensures forall j :: 0 <= j < n ==> LineBytes(input, ls, le, n)[j] == LineByte(input, ls, le, j)
  {
    if n > 0 {
      LineBytesIndex(input, ls, le, n - 1);
    }
  }

  /**
   * What the decoder reads off the line whose length character is at `i`:
   * the byte count, where the data characters start and end, and where the
   * next line starts (past one optional CR and one optional LF).
   */
  datatype LineHead = LineHead(count: nat, start: nat, end: nat, next: nat)

  function HeadAt(input: seq<byte>, i: nat): (h: LineHead)
    requires i < |input|
    ensures h.count < 64 && h.start == i + 1 <= h.end <= h.next <= |input|
  {
    var le := FindEol(input, i + 1, |input|);
    LineHead(Sextet(input[i]), i + 1, le, SkipEol(input, le, |input|))
  }

  /**
   * What `uudecode` produces from offset `i` of its input when `pos` bytes of
   * its `cap`-byte output are already written. CR and LF bytes at a line
   * start are skipped; a line's first character gives its byte count
   * n = (L - 32) & 0x3f, and n = 0 ends decoding. A line contributes
   * min(n, cap - pos) bytes; once a line reaches past the cap nothing follows.
   */
  function DecodeFrom(input: seq<byte>, i: nat, cap: nat, pos: nat): (out: seq<byte>)
    requires i <= |input| && pos <= cap
    decreases |input| - i, 1
  {
    if i == |input| then []
    else if IsNewline(input[i]) then DecodeFrom(input, i + 1, cap, pos)
    else DecodeLineAt(input, i, cap, pos)
  }

  /** `DecodeFrom` at a line's length character. */
  function DecodeLineAt(input: seq<byte>, i: nat, cap: nat, pos: nat): (out: seq<byte>)
    requires i < |input| && pos <= cap
    decreases |input| - i, 0
  {
    var h := HeadAt(input, i);
    if h.count == 0 then []
    else if pos + h.count > cap then LineBytes(input, h.start, h.end, cap - pos)
    else LineBytes(input, h.start, h.end, h.count) + DecodeFrom(input, h.next, cap, pos + h.count)
  }

  /** `uudecode(in, in_len, out, cap)`'s output bytes. */
  function Decode(input: seq<byte>, cap: nat): seq<byte>
  {
    DecodeFrom(input, 0, cap, 0)
  }

  /** One line of `DecodeFrom`: its bytes, then (if it fit) the rest of the input. */
  lemma DecodeStep(input: seq<byte>, i: nat, cap: nat, pos: nat)
    requires i < |input| && pos <= cap && !IsNewline(input[i]) && HeadAt(input, i).count > 0
    ensures var h := HeadAt(input, i);
            && (pos + h.count > cap ==> DecodeFrom(input, i, cap, pos) == LineBytes(input, h.start, h.end, cap - pos))
            && (pos + h.count <= cap ==>
                  DecodeFrom(input, i, cap, pos)
                  == LineBytes(input, h.start, h.end, h.count) + DecodeFrom(input, h.next, cap, pos + h.count))
  {
  }

  /**
   * The sum of the line byte counts from offset `i` up to the first
   * zero-count line: what an unbounded output would receive.
   */
  function LineCountSum(input: seq<byte>, i: nat): nat
    requires i <= |input|
    decreases |input| - i
  {
    if i == |input| then 0
    else if IsNewline(input[i]) then LineCountSum(input, i + 1)
    else
      var h := HeadAt(input, i);
      if h.count == 0 then 0 else h.count + LineCountSum(input, h.next)
  }

  /** The length of one line's contribution, given the length of what follows it. */
  lemma LengthStep(input: seq<byte>, i: nat, cap: nat, pos: nat)
    requires i < |input| && pos <= cap && !IsNewline(input[i]) && HeadAt(input, i).count > 0
    requires var h := HeadAt(input, i);
             pos + h.count <= cap ==>
               |DecodeFrom(input, h.next, cap, pos + h.count)| == Min(LineCountSum(input, h.next), cap - pos - h.count)
    ensures |DecodeFrom(input, i, cap, pos)| == Min(LineCountSum(input, i), cap - pos)
  {
    DecodeStep(input, i, cap, pos);
  }

  /** The decoder writes the line counts' sum, cut at the capacity. */
  lemma {:induction false} DecodeFromLength(input: seq<byte>, i: nat, cap: nat, pos: nat)
    requires i <= |input| && pos <= cap
    ensures |DecodeFrom(input, i, cap, pos)| == Min(LineCountSum(input, i), cap - pos)
    decreases |input| - i
  {
    if i < |input| && IsNewline(input[i]) {
      DecodeFromLength(input, i + 1, cap, pos);
    } else if i < |input| && HeadAt(input, i).count > 0 {
      var h := HeadAt(input, i);
      if pos + h.count <= cap {
        DecodeFromLength(input, h.next, cap, pos + h.count);
      }
      LengthStep(input, i, cap, pos);
    }
  }

  lemma DecodeLength(input: seq<byte>, cap: nat)
    ensures |Decode(input, cap)| == Min(LineCountSum(input, 0), cap)
  {
    DecodeFromLength(input, 0, cap, 0);
  }

  /** The 45 bytes `decode_full_line` computes from the 60 characters at `ls`. */
  function FullLineByte(input: seq<byte>, ls: nat, j: nat): byte
    requires j < 45 && ls + 60 <= |input|
  {
    var g := j / 3;
    DecodeGroup(Sextet(input[ls + 4 * g]), Sextet(input[ls + 4 * g + 1]),
                Sextet(input[ls + 4 * g + 2]), Sextet(input[ls + 4 * g + 3]), j % 3)
  }

  /**
   * The fast path writes the same 45 bytes as the slow path would for a full
   * line: a line with at least 60 data characters needs no padding.
   */
  lemma FastPathAgrees(input: seq<byte>, ls: nat, le: nat)
    requires ls + 60 <= le <= |input|
    ensures forall j :: 0 <= j < 45 ==> FullLineByte(input, ls, j) == LineBytes(input, ls, le, 45)[j]
  {
    LineBytesIndex(input, ls, le, 45);
    forall j | 0 <= j < 45
      ensures FullLineByte(input, ls, j) == LineBytes(input, ls, le, 45)[j]
    {
      var g, r := j / 3, j % 3;
      assert j == 3 * g + r && 4 * g + 3 < 60;
      LineByteAt(input, ls, le, g, r);
    }
  }

  /** `decode_full_line`, scalar version: 15 groups of 4 characters into 45 bytes at `pos`. */
  method DecodeFullLine(input: seq<byte>, ls: nat, out: array<byte>, pos: nat)
    requires ls + 60 <= |input| && pos + 45 <= out.Length
    modifies out
    ensures forall j :: 0 <= j < 45 ==> out[pos + j] == FullLineByte(input, ls, j)
    ensures forall t :: 0 <= t < out.Length && !(pos <= t < pos + 45) ==> out[t] == old(out[t])
  {
    for g := 0 to 15
      invariant forall j :: 0 <= j < 3 * g ==> out[pos + j] == FullLineByte(input, ls, j)
      invariant forall t :: 0 <= t < out.Length && !(pos <= t < pos + 3 * g) ==> out[t] == old(out[t])
    {
      var da := Sextet(input[ls + g * 4 + 0]);
      var db := Sextet(input[ls + g * 4 + 1]);
      var dc := Sextet(input[ls + g * 4 + 2]);
      var dd := Sextet(input[ls + g * 4 + 3]);
      out[pos + g * 3 + 0] := DecodeGroup(da, db, dc, dd, 0);
      out[pos + g * 3 + 1] := DecodeGroup(da, db, dc, dd, 1);
      out[pos + g * 3 + 2] := DecodeGroup(da, db, dc, dd, 2);
    }
  }

  /**
   * `1 << b` for the bit counts the accumulator can hold right after it
   * emits a byte: a group's 24 bits leave 4, then 2, then 0 bits behind.
   */
  function Pow2(b: nat): (r: nat)
    requires b == 0 || b == 2 || b == 4
    ensures r > 0
  {
    if b == 0 then 1 else if b == 2 then 4 else 16
  }

  /**
   * The slow path's bit accumulator: when a group's second, third and fourth
   * sextets arrive, the byte the accumulator emits is the group formula's
   * byte, and the bits it keeps are the low bits of the newest sextet.
   */
  lemma AccumulatorFirstByte(a: nat, b: nat)
    requires a < 64 && b < 64
    ensures (a * 64 + b) / 16 == a * 4 + b / 16
    ensures (a * 64 + b) % 16 == b % 16
  {
  }

  lemma AccumulatorSecondByte(b: nat, c: nat)
    requires b < 64 && c < 64
    ensures ((b % 16) * 64 + c) / 4 % 256 == (b * 16 + c / 4) % 256
    ensures ((b % 16) * 64 + c) % 4 == c % 4
  {
    var r := b % 16;
    assert (r * 64 + c) / 4 == r * 16 + c / 4;
    assert r * 16 + c / 4 < 256;
    var q := b / 16;
    assert b * 16 == q * 256 + r * 16;
    ModMultipleAdd(q, r * 16 + c / 4);
  }

  lemma AccumulatorThirdByte(c: nat, d: nat)
    requires c < 64 && d < 64
    ensures ((c % 4) * 64 + d) % 256 == (c * 64 + d) % 256
  {
    var r := c % 4;
    assert r * 64 + d < 256;
    var q := c / 4;
    assert c * 64 + d == q * 256 + (r * 64 + d);
    ModMultipleAdd(q, r * 64 + d);
  }

  /** Adding a multiple of 256 does not change a value modulo 256. */
  lemma {:induction false} ModMultipleAdd(q: nat, x: nat)
    ensures (q * 256 + x) % 256 == x % 256
  {
    if q > 0 {
      ModMultipleAdd(q - 1, x);
      assert q * 256 + x == (q - 1) * 256 + x + 256;
    }
  }

  /**
   * The state of the slow path's accumulator in group `g` of a line after
   * `r` (0 to 3) of the group's sextets and `j` emitted bytes: `leftbits`
   * (0, 6, 4, 2 by `r`) unconsumed low bits of the latest sextet are held in
   * `leftchar`.
   */
  predicate Accumulator(input: seq<byte>, ls: nat, le: nat, g: nat, r: nat, leftchar: nat, leftbits: nat, j: nat)
    requires ls <= le <= |input|
  {
    && r < 4
    && (r == 0 ==> leftbits == 0 && leftchar == 0 && j == 3 * g)
    && (r == 1 ==> leftbits == 6 && leftchar == LineSextet(input, ls, le, 4 * g) && j == 3 * g)
    && (r == 2 ==> leftbits == 4 && leftchar == LineSextet(input, ls, le, 4 * g + 1) % 16 && j == 3 * g + 1)
    && (r == 3 ==> leftbits == 2 && leftchar == LineSextet(input, ls, le, 4 * g + 2) % 4 && j == 3 * g + 2)
  }

  /**
   * One step of the accumulator: shifting in the group's next sextet either
   * only stores it or emits decoded byte `j` of the line and keeps the right
   * low bits.
   */
  lemma AccumulatorStep(input: seq<byte>, ls: nat, le: nat, g: nat, r: nat, leftchar: nat, leftbits: nat, j: nat,
                        acc: nat, bits: nat)
    requires ls <= le <= |input|
    requires Accumulator(input, ls, le, g, r, leftchar, leftbits, j)
    requires acc == leftchar * 64 + LineSextet(input, ls, le, 4 * g + r) && bits == leftbits + 6
    ensures bits < 8 ==> r == 0 && Accumulator(input, ls, le, g, 1, acc, bits, j)
    ensures bits >= 8 ==> (acc / Pow2(bits - 8)) % 256 == LineByte(input, ls, le, j)
    ensures bits >= 8 && r < 3 ==> Accumulator(input, ls, le, g, r + 1, acc % Pow2(bits - 8), bits - 8, j + 1)
    ensures bits >= 8 && r == 3 ==> Accumulator(input, ls, le, g + 1, 0, acc % Pow2(bits - 8), bits - 8, j + 1)
  {
    if r == 1 {
      AccumulatorStep1(input, ls, le, g, j, acc);
    } else if r == 2 {
      AccumulatorStep2(input, ls, le, g, j, acc);
    } else if r == 3 {
      AccumulatorStep3(input, ls, le, g, j, acc);
    }
  }

  lemma AccumulatorStep1(input: seq<byte>, ls: nat, le: nat, g: nat, j: nat, acc: nat)
    requires ls <= le <= |input| && j == 3 * g
    requires acc == LineSextet(input, ls, le, 4 * g) * 64 + LineSextet(input, ls, le, 4 * g + 1)
    ensures (acc / Pow2(4)) % 256 == LineByte(input, ls, le, j)
    ensures acc % Pow2(4) == LineSextet(input, ls, le, 4 * g + 1) % 16
  {
    AccumulatorFirstByte(LineSextet(input, ls, le, 4 * g), LineSextet(input, ls, le, 4 * g + 1));
    assert Pow2(4) == 16;
    LineByteAt(input, ls, le, g, 0);
  }

  lemma AccumulatorStep2(input: seq<byte>, ls: nat, le: nat, g: nat, j: nat, acc: nat)
    requires ls <= le <= |input| && j == 3 * g + 1
    requires acc == (LineSextet(input, ls, le, 4 * g + 1) % 16) * 64 + LineSextet(input, ls, le, 4 * g + 2)
    ensures (acc / Pow2(2)) % 256 == LineByte(input, ls, le, j)
    ensures acc % Pow2(2) == LineSextet(input, ls, le, 4 * g + 2) % 4
  {
    AccumulatorSecondByte(LineSextet(input, ls, le, 4 * g + 1), LineSextet(input, ls, le, 4 * g + 2));
    assert Pow2(2) == 4;
    LineByteAt(input, ls, le, g, 1);
  }

  lemma AccumulatorStep3(input: seq<byte>, ls: nat, le: nat, g: nat, j: nat, acc: nat)
    requires ls <= le <= |input| && j == 3 * g + 2
    requires acc == (LineSextet(input, ls, le, 4 * g + 2) % 4) * 64 + LineSextet(input, ls, le, 4 * g + 3)
    ensures (acc / Pow2(0)) % 256 == LineByte(input, ls, le, j)
    ensures acc % Pow2(0) == 0
  {
    AccumulatorThirdByte(LineSextet(input, ls, le, 4 * g + 2), LineSextet(input, ls, le, 4 * g + 3));
    LineByteAt(input, ls, le, g, 2);
  }

  /**
   * One pass of the slow path's loop body: shift the next sextet of the line
   * (0 past its end) into the accumulator and, once eight bits are
   * available, take out the top byte. Sextet `r` of group `g` is the one
   * shifted in; `j` bytes of the line were emitted before.
   */
  method ShiftIn(input: seq<byte>, lineStart: nat, lineEnd: nat, p: nat, leftchar: nat, leftbits: nat,
                 ghost g: nat, ghost r: nat, ghost j: nat)
    returns (p': nat, leftchar': nat, leftbits': nat, emitted: Option<byte>)
    requires lineStart <= lineEnd <= |input| && p == Min(lineStart + 4 * g + r, lineEnd)
    requires Accumulator(input, lineStart, lineEnd, g, r, leftchar, leftbits, j)
    ensures r < 3 ==> p' == Min(lineStart + 4 * g + r + 1, lineEnd)
                      && Accumulator(input, lineStart, lineEnd, g, r + 1, leftchar', leftbits', if r == 0 then j else j + 1)
    ensures r == 3 ==> p' == Min(lineStart + 4 * (g + 1), lineEnd)
                       && Accumulator(input, lineStart, lineEnd, g + 1, 0, leftchar', leftbits', j + 1)
    ensures emitted.Some? <==> r > 0
    ensures emitted.Some? ==> emitted.value == LineByte(input, lineStart, lineEnd, j)
  {
    var ch := if p < lineEnd then Sextet(input[p]) else 0;
    p' := if p < lineEnd then p + 1 else p;
    AccumulatorStep(input, lineStart, lineEnd, g, r, leftchar, leftbits, j, leftchar * 64 + ch, leftbits + 6);
    leftchar' := leftchar * 64 + ch;
    leftbits' := leftbits + 6;
    emitted := None;
    if leftbits' >= 8 {
      leftbits' := leftbits' - 8;
      emitted := Some((leftchar' / Pow2(leftbits')) % 256);
      leftchar' := leftchar' % Pow2(leftbits');
    }
  }

  /**
   * The slow path of `uudecode` for one line: a bit accumulator that takes
   * the line's sextets (0 past its end) six bits at a time and emits a byte
   * whenever eight bits are available, until `nbytes` bytes are written.
   */
  method DecodeLineSlow(input: seq<byte>, lineStart: nat, lineEnd: nat, out: array<byte>, base: nat, nbytes: nat)
    requires lineStart <= lineEnd <= |input| && base + nbytes <= out.Length
    modifies out
    ensures out[base..base + nbytes] == LineBytes(input, lineStart, lineEnd, nbytes)
    ensures forall t :: 0 <= t < out.Length && !(base <= t < base + nbytes) ==> out[t] == old(out[t])
  {
    var outPos := base;
    var p := lineStart;
    var remaining: nat := nbytes;
    var leftchar: nat := 0;
    var leftbits: nat := 0;
    ghost var g: nat, r: nat := 0, 0;
    while remaining > 0
      invariant remaining <= nbytes && outPos == base + (nbytes - remaining)
      invariant p == Min(lineStart + 4 * g + r, lineEnd)
      invariant Accumulator(input, lineStart, lineEnd, g, r, leftchar, leftbits, nbytes - remaining)
      invariant forall j :: 0 <= j < nbytes - remaining ==> out[base + j] == LineByte(input, lineStart, lineEnd, j)
      invariant forall t :: 0 <= t < out.Length && !(base <= t < outPos) ==> out[t] == old(out[t])
      decreases 4 * nbytes - 3 * (4 * g + r)
    {
      var b;
      p, leftchar, leftbits, b := ShiftIn(input, lineStart, lineEnd, p, leftchar, leftbits, g, r, nbytes - remaining);
      if b.Some? {
        // the C code re-checks out_pos >= out_cap here; nbytes was clamped, so it never fires
        out[outPos] := b.value;
        outPos := outPos + 1;
        remaining := remaining - 1;
      }
      if r == 3 {
        g, r := g + 1, 0;
      } else {
        r := r + 1;
      }
    }
    LineBytesIndex(input, lineStart, lineEnd, nbytes);
  }

  /**
   * The body of `uudecode`'s line loop once the line's byte count `nbytes`
   * is known and clamped: the 45-byte fast path for a full, unclamped `M`
   * line with at least 60 data characters (and 64 readable bytes), the
   * accumulator otherwise. Either way the line's first `nbytes` decoded
   * bytes land at `outPos`.
   */
  method DecodeLine(input: seq<byte>, lenChar: byte, lineStart: nat, lineEnd: nat, out: array<byte>,
                    outPos: nat, nbytes: nat, outFull: bool, outCap: nat)
    requires lineStart <= lineEnd <= |input| && outPos + nbytes <= outCap <= out.Length
    requires lenChar == 'M' as int && !outFull ==> nbytes == 45
    modifies out
    ensures out[outPos..outPos + nbytes] == LineBytes(input, lineStart, lineEnd, nbytes)
    ensures forall t :: 0 <= t < out.Length && !(outPos <= t < outPos + nbytes) ==> out[t] == old(out[t])
    ensures out[..outPos] == old(out[..outPos])
  {
    // Fast path: a full line of at least 60 encoded characters
    if !outFull && lenChar == 'M' as int && lineEnd - lineStart >= 60
       && lineStart + 64 <= |input| && outPos + 45 <= outCap
    {
      DecodeFullLine(input, lineStart, out, outPos);
      FastPathAgrees(input, lineStart, lineEnd);
    } else {
      // Slow path: bit accumulator over the line's sextets
      DecodeLineSlow(input, lineStart, lineEnd, out, outPos, nbytes);
    }
    assert out[..outPos] == old(out[..outPos]);
  }

  /**
   * `uudecode`: decode `input` into `out[0..outCap)`. Returns the number of
   * bytes written, never more than `outCap`, and writes nothing at or beyond
   * that count.
   */
  method Uudecode(input: seq<byte>, out: array<byte>, outCap: nat) returns (written: nat)
    requires outCap <= out.Length
    modifies out
    ensures written <= outCap
    ensures out[..written] == Decode(input, outCap)
    ensures forall t :: written <= t < out.Length ==> out[t] == old(out[t])
  {
    var i: nat := 0;
    var outPos: nat := 0;
    ghost var whole := Decode(input, outCap);
    assert out[..0] + DecodeFrom(input, 0, outCap, 0) == whole;
    while i < |input|
      invariant i <= |input| && outPos <= outCap
      invariant out[..outPos] + DecodeFrom(input, i, outCap, outPos) == whole
      invariant forall t :: outPos <= t < out.Length ==> out[t] == old(out[t])
      decreases |input| - i
    {
      var lenChar := input[i];

      // a line that starts with CR or LF is stepped over one byte at a time
      if lenChar == LF || lenChar == CR {
        i := i + 1;
        continue;
      }

      // a count of zero closes the payload
      if Sextet(lenChar) == 0 {
        break;
      }

      ghost var before := out[..outPos];
      var next, newPos, stop := UudecodeLine(input, i, out, outCap, outPos);
      LineSplice(input, i, outCap, outPos, before, whole, out[..newPos]);
      i, outPos := next, newPos;
      if stop {
        return outPos;
      }
    }
    assert DecodeFrom(input, i, outCap, outPos) == [];
    assert out[..outPos] == out[..outPos] + [];
    return outPos;
  }

  /**
   * Splicing one line into the output: once `written` holds the bytes before
   * the line followed by the line's (clamped) bytes, either the line filled
   * the output and `written` is everything, or the rest of the input
   * decodes to what is still missing.
   */
  lemma LineSplice(input: seq<byte>, at: nat, cap: nat, pos: nat, prefix: seq<byte>, whole: seq<byte>, written: seq<byte>)
    requires at < |input| && pos <= cap && !IsNewline(input[at]) && HeadAt(input, at).count > 0
    requires prefix + DecodeFrom(input, at, cap, pos) == whole
    requires var h := HeadAt(input, at);
             written == prefix + LineBytes(input, h.start, h.end, Min(h.count, cap - pos))
    ensures var h := HeadAt(input, at);
            && (pos + h.count > cap ==> written == whole)
            && (pos + h.count <= cap ==> written + DecodeFrom(input, h.next, cap, pos + h.count) == whole)
  {
    var h := HeadAt(input, at);
    if pos + h.count <= cap {
      SpliceFits(input, at, cap, pos, prefix, whole, written);
    } else {
      SpliceFull(input, at, cap, pos, prefix, whole, written);
    }
  }

  lemma SpliceFits(input: seq<byte>, at: nat, cap: nat, pos: nat, prefix: seq<byte>, whole: seq<byte>, written: seq<byte>)
    requires at < |input| && pos <= cap && !IsNewline(input[at])
    requires var h := HeadAt(input, at); h.count > 0 && pos + h.count <= cap
    requires prefix + DecodeFrom(input, at, cap, pos) == whole
    requires var h := HeadAt(input, at); written == prefix + LineBytes(input, h.start, h.end, h.count)
    ensures var h := HeadAt(input, at); written + DecodeFrom(input, h.next, cap, pos + h.count) == whole
  {
    var h := HeadAt(input, at);
    DecodeStep(input, at, cap, pos);
    AppendAssoc(prefix, LineBytes(input, h.start, h.end, h.count), DecodeFrom(input, h.next, cap, pos + h.count));
  }

  lemma SpliceFull(input: seq<byte>, at: nat, cap: nat, pos: nat, prefix: seq<byte>, whole: seq<byte>, written: seq<byte>)
    requires at < |input| && pos <= cap && !IsNewline(input[at])
    requires var h := HeadAt(input, at); h.count > 0 && pos + h.count > cap
    requires prefix + DecodeFrom(input, at, cap, pos) == whole
    requires var h := HeadAt(input, at); written == prefix + LineBytes(input, h.start, h.end, cap - pos)
    ensures written == whole
  {
    DecodeStep(input, at, cap, pos);
  }

  /**
   * One pass of `uudecode`'s line loop over a line whose count character at
   * `at` is neither CR, LF nor a zero count: clamp the count to the room
   * left, decode, and advance past the line's CR? LF?. `stop` is the C
   * code's early `return out_pos` (no room left, or the line filled the
   * output).
   */
  method UudecodeLine(input: seq<byte>, at: nat, out: array<byte>, outCap: nat, outPos: nat)
    returns (next: nat, newPos: nat, stop: bool)
    requires at < |input| && !IsNewline(input[at]) && Sextet(input[at]) > 0
    requires outPos <= outCap <= out.Length
    modifies out
    ensures var h := HeadAt(input, at);
            && next == h.next
            && stop == (outPos + h.count > outCap)
            && newPos == outPos + Min(h.count, outCap - outPos)
            && out[..newPos] == old(out[..outPos]) + LineBytes(input, h.start, h.end, Min(h.count, outCap - outPos))
    ensures forall t :: newPos <= t < out.Length ==> out[t] == old(out[t])
  {
    var lenChar := input[at];
    var nbytes := Sextet(lenChar);

    // find_newline (src/uudecode.c) is the same scan as find_eol
    var lineStart := at + 1;
    var lineEnd := FindEol(input, lineStart, |input|);
    // advance past the line's CR? LF?
    next := SkipEol(input, lineEnd, |input|);

    var outFull := false;
    if outPos + nbytes > outCap {
      nbytes := outCap - outPos;
      outFull := true;
    }
    if nbytes == 0 {
      assert out[..outPos] + LineBytes(input, lineStart, lineEnd, 0) == out[..outPos];
      return next, outPos, true;
    }

    DecodeLine(input, lenChar, lineStart, lineEnd, out, outPos, nbytes, outFull, outCap);
    assert out[..outPos + nbytes] == out[..outPos] + out[outPos..outPos + nbytes];
    next, newPos, stop := next, outPos + nbytes, outFull;
  }

  /** The line `#0V%T` (bytes 35 48 86 37 84) decodes to `Cat` (bytes 67 97 116). */
  lemma CatTestVector(cap: nat)
    requires cap >= 3
    ensures Decode([35, 48, 86, 37, 84], cap) == [67, 97, 116]
  {
    var input: seq<byte> := [35, 48, 86, 37, 84];
    assert FindEol(input, 1, 5) == 5;
    assert SkipEol(input, 5, 5) == 5;
    assert DecodeFrom(input, 5, cap, 3) == [];
    var line := LineBytes(input, 1, 5, 3);
    assert line[0] == 67 && line[1] == 97 && line[2] == 116;
    assert Decode(input, cap) == line + [];
  }
}
