/*
 * The byte-scanning helpers of src/secsgml.c (and, identically, of the older
 * secsgml.c): whitespace, end-of-line search, trimming, sub-span search and the
 * blank-line search used for the privacy banner.
 */
module Lines {
  import opened Base

  /** `is_space`: space, tab, CR or LF. */
  predicate IsSpace(c: byte) {
    c == SP || c == TAB || c == CR || c == LF
  }

  predicate IsNewline(c: byte) {
    c == LF || c == CR
  }

  /** `memchr(p, b, end - p)`: the first offset in [from, end) holding `b`. */
  function FindByte(buf: seq<byte>, from: nat, end: nat, b: byte): (r: Option<nat>)
    requires from <= end <= |buf|
    ensures r.Some? ==> from <= r.value < end && buf[r.value] == b
    decreases end - from
  {
    if from == end then None
    else if buf[from] == b then Some(from)
    else FindByte(buf, from + 1, end, b)
  }

  /** `b` does not occur before the offset found, nor anywhere when none is found. */
  lemma {:induction false} FindByteFirst(buf: seq<byte>, from: nat, end: nat, b: byte)
    requires from <= end <= |buf|
    ensures var r := FindByte(buf, from, end, b);
            && (r.Some? ==> forall k :: from <= k < r.value ==> buf[k] != b)
            && (r.None? ==> forall k :: from <= k < end ==> buf[k] != b)
    decreases end - from
  {
    if from < end && buf[from] != b {
      FindByteFirst(buf, from + 1, end, b);
    }
  }

  /** Skipping bytes that are not `b` does not change where `b` is found. */
  lemma {:induction false} FindByteSkip(buf: seq<byte>, a: nat, c: nat, end: nat, b: byte)
    requires a <= c <= end <= |buf|
    requires forall k :: a <= k < c ==> buf[k] != b
    ensures FindByte(buf, a, end, b) == FindByte(buf, c, end, b)
    decreases c - a
  {
    if a < c {
      FindByteSkip(buf, a + 1, c, end, b);
    }
  }

  /** `find_eol`: the first CR or LF at or after `p`, or `end`. */
  function FindEol(buf: seq<byte>, p: nat, end: nat): (e: nat)
    requires p <= end <= |buf|
    ensures p <= e <= end
    ensures e < end ==> IsNewline(buf[e])
    decreases end - p
  {
    if p < end && !IsNewline(buf[p]) then FindEol(buf, p + 1, end) else p
  }

  /** No CR or LF lies before the end of the line. */
  lemma {:induction false} FindEolScans(buf: seq<byte>, p: nat, end: nat)
    requires p <= end <= |buf|
    ensures forall k :: p <= k < FindEol(buf, p, end) ==> !IsNewline(buf[k])
    decreases end - p
  {
    if p < end && !IsNewline(buf[p]) {
      FindEolScans(buf, p + 1, end);
    }
  }

  /** `skip_eol`: consume one optional CR, then one optional LF. */
  function SkipEol(buf: seq<byte>, p: nat, end: nat): (q: nat)
    requires p <= end <= |buf|
    ensures p <= q <= p + 2 && q <= end
    ensures p < q ==> IsNewline(buf[p])
    ensures q == p + 2 ==> buf[p] == CR && buf[p + 1] == LF
    ensures p < end && IsNewline(buf[p]) ==> p < q
  {
    var a := if p < end && buf[p] == CR then p + 1 else p;
    if a < end && buf[a] == LF then a + 1 else a
  }

  /**
   * Where the scanning loops of the C code go after the line starting at `p`:
   * `skip_eol(find_eol(p, end), end)`. Every such loop makes progress.
   */
  function NextLine(buf: seq<byte>, p: nat, end: nat): (q: nat)
    requires p <= end <= |buf|
    ensures p < end ==> p < q <= end
    ensures q <= end
  {
    SkipEol(buf, FindEol(buf, p, end), end)
  }

  /**
   * The start of the `k`-th line of [p, end) when lines are walked as the
   * scanning loops walk them (line 0 starts at `p`); `end` once they run out.
   */
  function NthLine(buf: seq<byte>, p: nat, end: nat, k: nat): (q: nat)
    requires p <= end <= |buf|
    ensures p <= q <= end
    decreases k
  {
    if k == 0 then p else NthLine(buf, NextLine(buf, p, end), end, k - 1)
  }

  /** `ltrim_span`: drop leading whitespace. */
  function LTrimSpan(buf: seq<byte>, s: Span): (t: Span)
    requires s.End() <= |buf|
    ensures s.start <= t.start && t.End() == s.End()
    ensures t.len > 0 ==> !IsSpace(buf[t.start])
    decreases s.len
  {
    if s.len > 0 && IsSpace(buf[s.start]) then LTrimSpan(buf, Span(s.start + 1, s.len - 1)) else s
  }

  /** Everything `ltrim_span` drops is whitespace. */
  lemma {:induction false} LTrimDropsSpace(buf: seq<byte>, s: Span)
    requires s.End() <= |buf|
    ensures forall k :: s.start <= k < LTrimSpan(buf, s).start ==> IsSpace(buf[k])
    decreases s.len
  {
    if s.len > 0 && IsSpace(buf[s.start]) {
      LTrimDropsSpace(buf, Span(s.start + 1, s.len - 1));
    }
  }

  /** The second loop of `trim_span`: drop trailing whitespace. */
  function RTrimSpan(buf: seq<byte>, s: Span): (t: Span)
    requires s.End() <= |buf|
    ensures t.start == s.start && t.len <= s.len
    ensures t.len > 0 ==> !IsSpace(buf[t.End() - 1])
    decreases s.len
  {
    if s.len > 0 && IsSpace(buf[s.End() - 1]) then RTrimSpan(buf, Span(s.start, s.len - 1)) else s
  }

  /** Everything the second loop of `trim_span` drops is whitespace. */
  lemma {:induction false} RTrimDropsSpace(buf: seq<byte>, s: Span)
    requires s.End() <= |buf|
    ensures forall k :: RTrimSpan(buf, s).End() <= k < s.End() ==> IsSpace(buf[k])
    decreases s.len
  {
    if s.len > 0 && IsSpace(buf[s.End() - 1]) {
      RTrimDropsSpace(buf, Span(s.start, s.len - 1));
    }
  }

  /** A span with no whitespace at either edge. */
  predicate Trimmed(buf: seq<byte>, t: Span)
    requires t.End() <= |buf|
  {
    t.len > 0 ==> !IsSpace(buf[t.start]) && !IsSpace(buf[t.End() - 1])
  }

  /**
   * `trim_span`: the contiguous sub-span left after removing whitespace from
   * both edges; everything removed was whitespace.
   */
  function TrimSpan(buf: seq<byte>, s: Span): (t: Span)
    requires s.End() <= |buf|
    ensures s.start <= t.start && t.End() <= s.End()
    ensures Trimmed(buf, t)
  {
    RTrimSpan(buf, LTrimSpan(buf, s))
  }

  /** Everything `trim_span` drops, at either edge, is whitespace. */
  lemma TrimDropsSpace(buf: seq<byte>, s: Span)
    requires s.End() <= |buf|
    ensures forall k :: s.start <= k < TrimSpan(buf, s).start ==> IsSpace(buf[k])
    ensures forall k :: TrimSpan(buf, s).End() <= k < s.End() ==> IsSpace(buf[k])
  {
    LTrimDropsSpace(buf, s);
    RTrimDropsSpace(buf, LTrimSpan(buf, s));
  }

  /**
   * `value_to_eol`: the rest of the line from `p`, trimmed. The value runs to
   * the end of the line, not to the next tag.
   */
  function ValueToEol(buf: seq<byte>, p: nat, end: nat): (v: Span)
    requires p <= end <= |buf|
    ensures p <= v.start && v.End() <= FindEol(buf, p, end)
    ensures Trimmed(buf, v)
  {
    TrimSpan(buf, Span(p, FindEol(buf, p, end) - p))
  }

  /** The value holds no line break, and everything around it up to the end of the line is whitespace. */
  lemma ValueToEolSpans(buf: seq<byte>, p: nat, end: nat)
    requires p <= end <= |buf|
    ensures var v := ValueToEol(buf, p, end);
            && (forall k :: v.start <= k < v.End() ==> !IsNewline(buf[k]))
            && (forall k :: p <= k < v.start ==> IsSpace(buf[k]))
            && (forall k :: v.End() <= k < FindEol(buf, p, end) ==> IsSpace(buf[k]))
  {
    FindEolScans(buf, p, end);
    TrimDropsSpace(buf, Span(p, FindEol(buf, p, end) - p));
  }

  /** `needle` occurs in `buf` at offset `k`. */
  predicate OccursAt(buf: seq<byte>, k: nat, needle: seq<byte>) {
    k + |needle| <= |buf| && buf[k..k + |needle|] == needle
  }

  /**
   * `find_subspan` over the whole buffer: the first offset at or after `from`
   * where a non-empty `needle` occurs.
   */
  function FindSubspan(buf: seq<byte>, from: nat, needle: seq<byte>): (r: Option<nat>)
    requires from <= |buf|
    ensures r.Some? ==> from <= r.value && OccursAt(buf, r.value, needle) && |needle| > 0
    ensures r.Some? ==> forall k :: from <= k < r.value ==> !OccursAt(buf, k, needle)
    ensures r.None? && |needle| > 0 ==> forall k :: from <= k ==> !OccursAt(buf, k, needle)
    decreases |buf| - from
  {
    if |needle| == 0 || from + |needle| > |buf| then None
    else if buf[from..from + |needle|] == needle then Some(from)
    else FindSubspan(buf, from + 1, needle)
  }

  /** Length of the blank-line marker (`\n\n` or `\r\n\r\n`) that starts at offset `i` of `s`, or 0. */
  function BlankMarkAt(buf: seq<byte>, s: Span, i: nat): nat
    requires s.End() <= |buf|
  {
    if i + 1 < s.len && buf[s.start + i] == LF && buf[s.start + i + 1] == LF then 2
    else if i + 3 < s.len && buf[s.start + i] == CR && buf[s.start + i + 1] == LF
         && buf[s.start + i + 2] == CR && buf[s.start + i + 3] == LF then 4
    else 0
  }

  /**
   * `find_double_newline`, searching from offset `i` of `s`: the offset just
   * past the first blank-line marker, or `s.len` when there is none.
   */
  function FindDoubleNewline(buf: seq<byte>, s: Span, i: nat): (r: nat)
    requires s.End() <= |buf| && i <= s.len
    ensures i <= r <= s.len
    decreases s.len - i
  {
    if i + 1 >= s.len then s.len
    else if BlankMarkAt(buf, s, i) > 0 then i + BlankMarkAt(buf, s, i)
    else FindDoubleNewline(buf, s, i + 1)
  }

  /**
   * A result inside the span ends the first blank-line marker at or after
   * `i`; no marker at all gives `s.len`.
   */
  lemma {:induction false} FindDoubleNewlineFinds(buf: seq<byte>, s: Span, i: nat)
    requires s.End() <= |buf| && i <= s.len
    ensures var r := FindDoubleNewline(buf, s, i);
            r < s.len ==> exists j :: i <= j < r && BlankMarkAt(buf, s, j) > 0 && r == j + BlankMarkAt(buf, s, j)
                                     && forall k :: i <= k < j ==> BlankMarkAt(buf, s, k) == 0
    ensures (forall j :: i <= j < s.len ==> BlankMarkAt(buf, s, j) == 0) ==> FindDoubleNewline(buf, s, i) == s.len
    decreases s.len - i
  {
    if i + 1 >= s.len {
    } else if BlankMarkAt(buf, s, i) > 0 {
    } else {
      FindDoubleNewlineFinds(buf, s, i + 1);
    }
  }
}
