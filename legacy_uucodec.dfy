/*
 * The older, uncapped scalar decoder of the repository root (uudecode.c).
 * It reads each line in whole groups of four characters, padding a short
 * line with spaces, emits at most the line's byte count, and then skips to
 * just past the next LF: a line that ends in a bare CR runs on into the next
 * line.
 */
module LegacyUUCodec {
  import opened Base
  import opened Lines
  import opened UUCodec

  /** Where the line whose length character is at `i` ends and where the next one starts. */
  function LegacyHeadAt(input: seq<byte>, i: nat): (h: LineHead)
    requires i < |input|
    ensures h.count < 64 && h.start == i + 1 <= h.end <= h.next <= |input|
  {
    var le := FindEol(input, i + 1, |input|);
    var next := match FindByte(input, le, |input|, LF) {
      case Some(k) => k + 1
      case None => |input|
    };
    LineHead(Sextet(input[i]), i + 1, le, next)
  }

  /**
   * What the old `uudecode` writes from offset `i`: CR and LF at a line
   * start are skipped, a zero count ends decoding, and otherwise the line's
   * `n` bytes are followed by what the input after its LF decodes to.
   */
  function LegacyDecodeFrom(input: seq<byte>, i: nat): seq<byte>
    requires i <= |input|
    decreases |input| - i, 1
  {
    if i == |input| then []
    else if IsNewline(input[i]) then LegacyDecodeFrom(input, i + 1)
    else LegacyDecodeLineAt(input, i)
  }

  function LegacyDecodeLineAt(input: seq<byte>, i: nat): seq<byte>
    requires i < |input|
    decreases |input| - i, 0
  {
    var h := LegacyHeadAt(input, i);
    if h.count == 0 then []
    else LineBytes(input, h.start, h.end, h.count) + LegacyDecodeFrom(input, h.next)
  }

  function LegacyDecode(input: seq<byte>): seq<byte>
  {
    LegacyDecodeFrom(input, 0)
  }

  /** The sum of the line counts the old decoder walks through. */
  function LegacyCountSum(input: seq<byte>, i: nat): nat
    requires i <= |input|
    decreases |input| - i
  {
    if i == |input| then 0
    else if IsNewline(input[i]) then LegacyCountSum(input, i + 1)
    else
      var h := LegacyHeadAt(input, i);
      if h.count == 0 then 0 else h.count + LegacyCountSum(input, h.next)
  }

  lemma LegacyStep(input: seq<byte>, i: nat)
    requires i < |input| && !IsNewline(input[i]) && LegacyHeadAt(input, i).count > 0
    ensures var h := LegacyHeadAt(input, i);
            LegacyDecodeFrom(input, i) == LineBytes(input, h.start, h.end, h.count) + LegacyDecodeFrom(input, h.next)
  {
  }

  /** With no capacity bound the old decoder writes exactly the sum of the line counts. */
  lemma {:induction false} LegacyDecodeLength(input: seq<byte>, i: nat)
    requires i <= |input|
    ensures |LegacyDecodeFrom(input, i)| == LegacyCountSum(input, i)
    decreases |input| - i
  {
    if i < |input| && IsNewline(input[i]) {
      LegacyDecodeLength(input, i + 1);
    } else if i < |input| && LegacyHeadAt(input, i).count > 0 {
      LegacyDecodeLength(input, LegacyHeadAt(input, i).next);
      LegacyStep(input, i);
    }
  }

  /**
   * The input has no bare CR: every CR is immediately followed by an LF.
   * The two decoders then find the same line breaks.
   */
  predicate NoBareCr(input: seq<byte>) {
    forall k :: 0 <= k < |input| && input[k] == CR ==> k + 1 < |input| && input[k + 1] == LF
  }

  /** Without bare CRs both decoders move to the same next line. */
  lemma SameNextLine(input: seq<byte>, i: nat)
    requires i < |input| && NoBareCr(input)
    ensures LegacyHeadAt(input, i) == HeadAt(input, i)
  {
    var le := FindEol(input, i + 1, |input|);
    if le < |input| && input[le] == CR {
      assert input[le + 1] == LF;
      assert FindByte(input, le, |input|, LF) == FindByte(input, le + 1, |input|, LF);
    }
  }

  /**
   * The old decoder is the new one without its cap: on input without bare
   * CRs, and with room for every line, both produce the same bytes.
   */
  lemma {:induction false} LegacyAgrees(input: seq<byte>, i: nat, cap: nat, pos: nat)
    requires i <= |input| && NoBareCr(input) && pos + LegacyCountSum(input, i) <= cap
    ensures LegacyDecodeFrom(input, i) == DecodeFrom(input, i, cap, pos)
    decreases |input| - i
  {
    if i < |input| && IsNewline(input[i]) {
      LegacyAgrees(input, i + 1, cap, pos);
    } else if i < |input| {
      SameNextLine(input, i);
      var h := HeadAt(input, i);
      if h.count > 0 {
        LegacyAgrees(input, h.next, cap, pos + h.count);
        LegacyStep(input, i);
        DecodeStep(input, i, cap, pos);
      }
    }
  }

  /**
   * A bare CR ends a line for the new decoder but not for the old one: the
   * old decoder skips the second line of `!!!` CR `#0V%T` and stops after
   * one byte, the new one goes on to decode `Cat` from it.
   */
  lemma BareCrRunsOn()
    ensures var input: seq<byte> := [33, 33, 33, CR, 35, 48, 86, 37, 84];
            |LegacyDecode(input)| == 1 && |Decode(input, 100)| == 4
  {
    var input: seq<byte> := [33, 33, 33, CR, 35, 48, 86, 37, 84];
    assert FindEol(input, 1, 9) == 3;
    assert FindByte(input, 3, 9, LF) == None;
    assert LegacyCountSum(input, 9) == 0;
    assert LegacyCountSum(input, 0) == 1;
    LegacyDecodeLength(input, 0);
    assert SkipEol(input, 3, 9) == 4;
    assert FindEol(input, 5, 9) == 9;
    assert SkipEol(input, 9, 9) == 9;
    assert LineCountSum(input, 9) == 0;
    assert LineCountSum(input, 4) == 3;
    assert LineCountSum(input, 0) == 4;
    DecodeLength(input, 100);
  }

  /**
   * `(i < in_len && in[i] != '\n' && in[i] != '\r') ? in[i++] : 32`: the
   * next data character of the line, or a space once the line has ended.
   */
  method ReadPadded(input: seq<byte>, i: nat, ghost ls: nat, ghost le: nat, ghost k: nat) returns (c: byte, i': nat)
    requires ls <= |input| && le == FindEol(input, ls, |input|) && i == Min(ls + k, le)
    ensures Sextet(c) == LineSextet(input, ls, le, k)
    ensures i' == Min(ls + k + 1, le)
  {
    FindEolScans(input, ls, |input|);
    if i < |input| && input[i] != LF && input[i] != CR {
      c, i' := input[i], i + 1;
    } else {
      c, i' := 32, i;
    }
  }

  /**
   * The writes of one group: each of the three bytes is stored only while
   * fewer than `nbytes` bytes are produced; `produced` counts all three.
   */
  method PutGroup(out: array<byte>, outPos: nat, produced: nat, nbytes: nat, x0: byte, x1: byte, x2: byte,
                  ghost base: nat)
    returns (outPos': nat, produced': nat)
    requires produced < nbytes && outPos == base + produced && base + nbytes <= out.Length
    modifies out
    ensures produced' == produced + 3 && outPos' == base + Min(produced', nbytes)
    ensures out[outPos] == x0
    ensures produced + 1 < nbytes ==> out[outPos + 1] == x1
    ensures produced + 2 < nbytes ==> out[outPos + 2] == x2
    ensures forall t :: 0 <= t < out.Length && !(outPos <= t < outPos') ==> out[t] == old(out[t])
  {
    outPos', produced' := outPos, produced;
    if produced' < nbytes { out[outPos'] := x0; outPos' := outPos' + 1; }
    produced' := produced' + 1;
    if produced' < nbytes { out[outPos'] := x1; outPos' := outPos' + 1; }
    produced' := produced' + 1;
    if produced' < nbytes { out[outPos'] := x2; outPos' := outPos' + 1; }
    produced' := produced' + 1;
  }

  /**
   * One group of the old decoder's inner loop: read four characters (a
   * space once the line's CR, LF or the input's end is reached), then write
   * each of the group's three bytes while fewer than `nbytes` are produced.
   */
  method LegacyGroup(input: seq<byte>, i: nat, out: array<byte>, outPos: nat, produced: nat, nbytes: nat,
                     ghost ls: nat, ghost le: nat, ghost g: nat, ghost base: nat)
    returns (i': nat, outPos': nat, produced': nat)
    requires ls <= |input| && le == FindEol(input, ls, |input|) && i == Min(ls + 4 * g, le)
    requires produced == 3 * g < nbytes && outPos == base + produced && base + nbytes <= out.Length
    modifies out
    ensures i' == Min(ls + 4 * (g + 1), le)
    ensures produced' == produced + 3 && outPos' == base + Min(produced', nbytes)
    ensures forall j :: produced <= j < outPos' - base ==> out[base + j] == LineByte(input, ls, le, j)
    ensures forall t :: 0 <= t < out.Length && !(outPos <= t < outPos') ==> out[t] == old(out[t])
  {
    var a, b, c, d;
    i' := i;
    a, i' := ReadPadded(input, i', ls, le, 4 * g);
    b, i' := ReadPadded(input, i', ls, le, 4 * g + 1);
    c, i' := ReadPadded(input, i', ls, le, 4 * g + 2);
    d, i' := ReadPadded(input, i', ls, le, 4 * g + 3);

    var da, db, dc, dd := Sextet(a), Sextet(b), Sextet(c), Sextet(d);
    outPos', produced' := PutGroup(out, outPos, produced, nbytes, DecodeGroup(da, db, dc, dd, 0),
                                   DecodeGroup(da, db, dc, dd, 1), DecodeGroup(da, db, dc, dd, 2), base);
    forall j | produced <= j < outPos' - base
      ensures out[base + j] == LineByte(input, ls, le, j)
    {
      LineByteAt(input, ls, le, g, j - produced);
    }
  }

  /**
   * The old decoder's handling of one line whose length character at `at`
   * gives a non-zero count: decode whole groups until `nbytes` bytes are
   * produced, then skip to just past the next LF.
   */
  method LegacyLine(input: seq<byte>, at: nat, out: array<byte>, outPos: nat) returns (next: nat, newPos: nat)
    requires at < |input| && !IsNewline(input[at]) && Sextet(input[at]) > 0
    requires outPos + Sextet(input[at]) <= out.Length
    modifies out
    ensures var h := LegacyHeadAt(input, at);
            && next == h.next && newPos == outPos + h.count
            && out[..newPos] == old(out[..outPos]) + LineBytes(input, h.start, h.end, h.count)
    ensures forall t :: newPos <= t < out.Length ==> out[t] == old(out[t])
  {
    var nbytes := Sextet(input[at]);
    var i := at + 1;
    ghost var ls := i;
    ghost var le := FindEol(input, ls, |input|);
    ghost var base := outPos;
    var o := outPos;
    var produced := 0;
    ghost var g := 0;
    while produced < nbytes
      invariant produced == 3 * g < nbytes + 3 && o == base + Min(produced, nbytes) && i == Min(ls + 4 * g, le)
      invariant forall j :: 0 <= j < o - base ==> out[base + j] == LineByte(input, ls, le, j)
      invariant forall t :: 0 <= t < out.Length && !(base <= t < o) ==> out[t] == old(out[t])
      decreases nbytes + 3 - produced
    {
      i, o, produced := LegacyGroup(input, i, out, o, produced, nbytes, ls, le, g, base);
      g := g + 1;
    }
    newPos := o;
    LineBytesIndex(input, ls, le, nbytes);
    assert out[..newPos] == old(out[..outPos]) + LineBytes(input, ls, le, nbytes);

    // past the groups, on to the byte after the next LF
    FindEolScans(input, ls, |input|);
    FindByteSkip(input, i, le, |input|, LF);
    while i < |input| && input[i] != LF
      invariant i <= |input| && FindByte(input, i, |input|, LF) == FindByte(input, le, |input|, LF)
      decreases |input| - i
    {
      i := i + 1;
    }
    if i < |input| {
      i := i + 1;
    }
    next := i;
  }

  /** Splicing one line of the old decoder into its output. */
  lemma LegacySplice(input: seq<byte>, at: nat, prefix: seq<byte>, whole: seq<byte>, written: seq<byte>)
    requires at < |input| && !IsNewline(input[at]) && LegacyHeadAt(input, at).count > 0
    requires prefix + LegacyDecodeFrom(input, at) == whole
    requires var h := LegacyHeadAt(input, at); written == prefix + LineBytes(input, h.start, h.end, h.count)
    ensures written + LegacyDecodeFrom(input, LegacyHeadAt(input, at).next) == whole
  {
    var h := LegacyHeadAt(input, at);
    LegacyStep(input, at);
    AppendAssoc(prefix, LineBytes(input, h.start, h.end, h.count), LegacyDecodeFrom(input, h.next));
  }

  /**
   * The old `uudecode(in, in_len, out)`: the caller must supply room for
   * every line's count, since nothing bounds the writes.
   */
  method LegacyUudecode(input: seq<byte>, out: array<byte>) returns (written: nat)
    requires LegacyCountSum(input, 0) <= out.Length
    modifies out
    ensures written <= out.Length && out[..written] == LegacyDecode(input)
    ensures forall t :: written <= t < out.Length ==> out[t] == old(out[t])
  {
    var outPos: nat := 0;
    var i: nat := 0;
    ghost var whole := LegacyDecode(input);
    LegacyDecodeLength(input, 0);
    assert out[..0] + LegacyDecodeFrom(input, 0) == whole;
    while i < |input|
      invariant i <= |input| && outPos <= out.Length
      invariant out[..outPos] + LegacyDecodeFrom(input, i) == whole && |whole| <= out.Length
      invariant forall t :: outPos <= t < out.Length ==> out[t] == old(out[t])
      decreases |input| - i
    {
      var lenChar := input[i];
      if lenChar == LF || lenChar == CR {
        i := i + 1;
        continue;
      }
      var nbytes := Sextet(lenChar);
      if nbytes == 0 {
        break;
      }
      ghost var before := out[..outPos];
      LegacyStep(input, i);
      var next, newPos := LegacyLine(input, i, out, outPos);
      LegacySplice(input, i, before, whole, out[..newPos]);
      i, outPos := next, newPos;
    }
    assert LegacyDecodeFrom(input, i) == [];
    assert out[..outPos] == out[..outPos] + [];
    return outPos;
  }
}
