/*
 * The document scanner `parse_sgml` of src/secsgml.c and of the older
 * secsgml.c: a three-state machine that jumps from '<' to '<', records the
 * metadata spans of each <DOCUMENT>, and at </TEXT> either locates and decodes
 * a uuencoded payload or strips the text of its wrappers.
 *
 * The scanning loop is specified by the functions `Act` (one iteration) and
 * `RunFrom` (the loop), and implemented by the method `ParseSgml` over a
 * `SgmlParseResult` object whose document table grows as `docs_push` grows it.
 */
module Scanner {
  import opened Base
  import opened Lines
  import UUCodec
  import LegacyUUCodec

  /**
   * Which scanner: src/secsgml.c, the older root-level secsgml.c, or
   * src/secsgml.c with `content_len` reset at every `<TEXT>` (the correction
   * of a stale-length defect both copies share; it is in neither of them).
   */
  datatype Variant = Current | Legacy | Corrected

  // ---------------------------------------------------------------------------
  // The uuencoded region of a text block (`is_begin_644`, `is_end_line`,
  // `find_uu_bounds`)
  // ---------------------------------------------------------------------------

  /** `is_begin_644`: the `len` bytes at `p` are `begin 644`, alone or followed by whitespace. */
  predicate IsBegin644(buf: seq<byte>, p: nat, len: nat)
    requires p + len <= |buf|
  {
    len >= 9 && buf[p..p + 9] == Lit("begin 644") && (len == 9 || IsSpace(buf[p + 9]))
  }

  /** `is_end_line`: the `len` bytes at `p` are `end`, alone or followed by whitespace. */
  predicate IsEndLine(buf: seq<byte>, p: nat, len: nat)
    requires p + len <= |buf|
  {
    len >= 3 && buf[p..p + 3] == Lit("end") && (len == 3 || IsSpace(buf[p + 3]))
  }

  /** The line of [p, end) that starts at `p` is a `begin 644` line. */
  predicate BeginLineAt(buf: seq<byte>, p: nat, end: nat)
    requires p <= end <= |buf|
  {
    p < end && IsBegin644(buf, p, FindEol(buf, p, end) - p)
  }

  /** The line of [p, end) that starts at `p` is an `end` line. */
  predicate EndLineAt(buf: seq<byte>, p: nat, end: nat)
    requires p <= end <= |buf|
  {
    p < end && IsEndLine(buf, p, FindEol(buf, p, end) - p)
  }

  /**
   * The inner loop of `find_uu_bounds`: the start of the first line at or
   * after `scan` that is an `end` line, or `end` when there is none.
   */
  function EncodedEnd(buf: seq<byte>, scan: nat, end: nat): (r: nat)
    requires scan <= end <= |buf|
    ensures scan <= r <= end
    ensures r < end ==> EndLineAt(buf, r, end)
    decreases end - scan
  {
    if scan >= end then end
    else if EndLineAt(buf, scan, end) then scan
    else EncodedEnd(buf, NextLine(buf, scan, end), end)
  }

  /**
   * `EncodedEnd` stops at a line start of the walk from `scan` (line `k`),
   * and no earlier line of the walk is an `end` line.
   */
  lemma {:induction false} EncodedEndIsFirstEndLine(buf: seq<byte>, scan: nat, end: nat) returns (k: nat)
    requires scan <= end <= |buf|
    ensures NthLine(buf, scan, end, k) == EncodedEnd(buf, scan, end)
    ensures forall j :: 0 <= j < k ==> !EndLineAt(buf, NthLine(buf, scan, end, j), end)
    decreases end - scan
  {
    if scan >= end || EndLineAt(buf, scan, end) {
      k := 0;
    } else {
      var next := NextLine(buf, scan, end);
      var k' := EncodedEndIsFirstEndLine(buf, next, end);
      k := k' + 1;
      forall j | 0 <= j < k
        ensures !EndLineAt(buf, NthLine(buf, scan, end, j), end)
      {
        if j > 0 {
          assert NthLine(buf, scan, end, j) == NthLine(buf, next, end, j - 1);
        }
      }
    }
  }

  /**
   * `find_uu_bounds` from line number `line` of the text, at offset `p`: the
   * encoded region after the first `begin 644` line among the text's first
   * three lines, ending at the next `end` line or at the end of the text.
   */
  function UuBoundsFrom(buf: seq<byte>, p: nat, end: nat, line: nat): (r: Option<Span>)
    requires p <= end <= |buf| && line <= 3
    ensures r.Some? ==> p < r.value.start && r.value.End() <= end
    decreases 3 - line
  {
    if line == 3 || p >= end then None
    else
      var eol := FindEol(buf, p, end);
      if IsBegin644(buf, p, eol - p) then
        var enc := SkipEol(buf, eol, end);
        Some(Span(enc, EncodedEnd(buf, enc, end) - enc))
      else UuBoundsFrom(buf, SkipEol(buf, eol, end), end, line + 1)
  }

  /** `find_uu_bounds(text, text_end)`. */
  function FindUuBounds(buf: seq<byte>, text: nat, end: nat): (r: Option<Span>)
    requires text <= end <= |buf|
    ensures r.Some? ==> text < r.value.start && r.value.End() <= end
  {
    UuBoundsFrom(buf, text, end, 0)
  }

  /** None of lines 0 .. n-1 of the walk from `p` is a `begin 644` line. */
  predicate NoBeginLine(buf: seq<byte>, p: nat, end: nat, n: nat)
    requires p <= end <= |buf|
  {
    forall i :: 0 <= i < n ==> !BeginLineAt(buf, NthLine(buf, p, end, i), end)
  }

  /** `UuBoundsFrom` finds nothing only when no line still to be examined is a `begin 644` line. */
  lemma {:induction false} UuBoundsFromNone(buf: seq<byte>, p: nat, end: nat, line: nat)
    requires p <= end <= |buf| && line <= 3
    requires UuBoundsFrom(buf, p, end, line).None?
    ensures NoBeginLine(buf, p, end, 3 - line)
    decreases 3 - line
  {
    if line == 3 {
    } else if p >= end {
      forall i | 0 <= i < 3 - line
        ensures !BeginLineAt(buf, NthLine(buf, p, end, i), end)
      {
        NthLineAtEnd(buf, p, end, i);
      }
    } else {
      var next := NextLine(buf, p, end);
      UuBoundsFromNone(buf, next, end, line + 1);
      forall i | 0 <= i < 3 - line
        ensures !BeginLineAt(buf, NthLine(buf, p, end, i), end)
      {
        if i > 0 {
          assert NthLine(buf, p, end, i) == NthLine(buf, next, end, i - 1);
        }
      }
    }
  }

  /**
   * When `UuBoundsFrom` finds a region, line `k` of the walk is the first
   * `begin 644` line, and the region starts on the line after it and ends at
   * the next `end` line.
   */
  lemma {:induction false} UuBoundsFromSome(buf: seq<byte>, p: nat, end: nat, line: nat) returns (k: nat)
    requires p <= end <= |buf| && line <= 3
    requires UuBoundsFrom(buf, p, end, line).Some?
    ensures k < 3 - line && BeginLineAt(buf, NthLine(buf, p, end, k), end) && NoBeginLine(buf, p, end, k)
    ensures var r := UuBoundsFrom(buf, p, end, line).value;
            r.start == NextLine(buf, NthLine(buf, p, end, k), end) && r.End() == EncodedEnd(buf, r.start, end)
    decreases 3 - line
  {
    if BeginLineAt(buf, p, end) {
      k := 0;
    } else {
      var next := NextLine(buf, p, end);
      var k' := UuBoundsFromSome(buf, next, end, line + 1);
      k := k' + 1;
      assert NthLine(buf, p, end, k) == NthLine(buf, next, end, k');
      forall i | 0 <= i < k
        ensures !BeginLineAt(buf, NthLine(buf, p, end, i), end)
      {
        if i > 0 {
          assert NthLine(buf, p, end, i) == NthLine(buf, next, end, i - 1);
        }
      }
    }
  }

  /** Past the end of the region every line start is the end itself. */
  lemma {:induction false} NthLineAtEnd(buf: seq<byte>, p: nat, end: nat, k: nat)
    requires p == end <= |buf|
    ensures NthLine(buf, p, end, k) == end
    decreases k
  {
    if k > 0 {
      NthLineAtEnd(buf, NextLine(buf, p, end), end, k - 1);
    }
  }

  /**
   * `find_uu_bounds` succeeds exactly when one of the text's first three
   * lines is a `begin 644` line; the region then starts on the following line
   * and runs to the next `end` line or to the end of the text.
   */
  lemma FindUuBoundsSpec(buf: seq<byte>, text: nat, end: nat)
    requires text <= end <= |buf|
    ensures FindUuBounds(buf, text, end).Some?
            <==> exists k: nat :: k < 3 && BeginLineAt(buf, NthLine(buf, text, end, k), end)
    ensures var r := FindUuBounds(buf, text, end);
            r.Some? ==> exists k: nat :: && k < 3
                                         && BeginLineAt(buf, NthLine(buf, text, end, k), end)
                                         && NoBeginLine(buf, text, end, k)
                                         && r.value.start == NextLine(buf, NthLine(buf, text, end, k), end)
                                         && r.value.End() == EncodedEnd(buf, r.value.start, end)
  {
    if FindUuBounds(buf, text, end).Some? {
      var k := UuBoundsFromSome(buf, text, end, 0);
    } else {
      UuBoundsFromNone(buf, text, end, 0);
    }
  }

  // ---------------------------------------------------------------------------
  // The decoded size of the region (`uu_decoded_size`)
  // ---------------------------------------------------------------------------

  /** `UU_DECODE_MAX`: 256 MiB, the most `parse_sgml` decodes from one document. */
  const UuDecodeMax: nat := 256 * 1024 * 1024

  /** The size `uu_decoded_size` returns and whether it set `*capped`. */
  datatype DecodedSize = DecodedSize(size: nat, capped: bool)

  /**
   * The loop of `uu_decoded_size` over the encoded bytes `enc`, from offset `p`
   * with `total` bytes counted so far: empty lines are skipped, a zero count
   * ends the sum, and a sum past `UU_DECODE_MAX` is cut to it.
   */
  function DecodedSizeFrom(enc: seq<byte>, p: nat, total: nat): DecodedSize
    requires p <= |enc| && total <= UuDecodeMax
    decreases |enc| - p
  {
    if p == |enc| then DecodedSize(total, false)
    else
      var eol := FindEol(enc, p, |enc|);
      if p < eol then
        var n := UUCodec.Sextet(enc[p]);
        if n == 0 then DecodedSize(total, false)
        else if total > UuDecodeMax - n then DecodedSize(UuDecodeMax, true)
        else DecodedSizeFrom(enc, SkipEol(enc, eol, |enc|), total + n)
      else DecodedSizeFrom(enc, SkipEol(enc, eol, |enc|), total)
  }

  /** `uu_decoded_size(enc_start, enc_end, &capped)`. */
  function UuDecodedSize(enc: seq<byte>): DecodedSize
  {
    DecodedSizeFrom(enc, 0, 0)
  }

  /** Skipping the newline bytes at a line start does not change the line count sum. */
  lemma SkipEolKeepsSum(enc: seq<byte>, p: nat)
    requires p < |enc| && IsNewline(enc[p])
    ensures UUCodec.LineCountSum(enc, SkipEol(enc, p, |enc|)) == UUCodec.LineCountSum(enc, p)
  {
    var q := SkipEol(enc, p, |enc|);
    if q == p + 2 {
      assert IsNewline(enc[p + 1]);
    }
  }

  /**
   * At a line that does not start with a newline, `uu_decoded_size` and the
   * decoder read the same count and go on at the same next line.
   */
  lemma SizeWalkAgrees(enc: seq<byte>, p: nat)
    requires p < |enc| && !IsNewline(enc[p])
    ensures var eol := FindEol(enc, p, |enc|);
            var h := UUCodec.HeadAt(enc, p);
            && p < eol
            && h.count == UUCodec.Sextet(enc[p])
            && h.next == SkipEol(enc, eol, |enc|)
            && UUCodec.LineCountSum(enc, p) == if h.count == 0 then 0 else h.count + UUCodec.LineCountSum(enc, h.next)
  {
    assert FindEol(enc, p, |enc|) == FindEol(enc, p + 1, |enc|);
  }

  /**
   * `uu_decoded_size` walks the same lines as the decoder: from offset `p`
   * with `total` counted, its sum is `total` plus the decoder's line count
   * sum, cut at `UU_DECODE_MAX`, and it is capped exactly when that sum
   * exceeds the maximum.
   */
  predicate SizeIsCappedSum(enc: seq<byte>, p: nat, total: nat)
    requires p <= |enc| && total <= UuDecodeMax
  {
    var sum := total + UUCodec.LineCountSum(enc, p);
    DecodedSizeFrom(enc, p, total) == DecodedSize(Min(sum, UuDecodeMax), sum > UuDecodeMax)
  }

  lemma SizeStepNewline(enc: seq<byte>, p: nat, total: nat)
    requires p < |enc| && IsNewline(enc[p]) && total <= UuDecodeMax
    requires SizeIsCappedSum(enc, SkipEol(enc, p, |enc|), total)
    ensures SizeIsCappedSum(enc, p, total)
  {
    SkipEolKeepsSum(enc, p);
  }

  lemma SizeStepLine(enc: seq<byte>, p: nat, total: nat)
    requires p < |enc| && !IsNewline(enc[p]) && total <= UuDecodeMax
    requires var h := UUCodec.HeadAt(enc, p);
             h.count > 0 && total <= UuDecodeMax - h.count ==> SizeIsCappedSum(enc, h.next, total + h.count)
    ensures SizeIsCappedSum(enc, p, total)
  {
    SizeWalkAgrees(enc, p);
  }

  lemma {:induction false} DecodedSizeFromSpec(enc: seq<byte>, p: nat, total: nat)
    requires p <= |enc| && total <= UuDecodeMax
    ensures SizeIsCappedSum(enc, p, total)
    decreases |enc| - p
  {
    if p == |enc| {
    } else if IsNewline(enc[p]) {
      DecodedSizeFromSpec(enc, SkipEol(enc, p, |enc|), total);
      SizeStepNewline(enc, p, total);
    } else {
      var h := UUCodec.HeadAt(enc, p);
      if h.count > 0 && total <= UuDecodeMax - h.count {
        DecodedSizeFromSpec(enc, h.next, total + h.count);
      }
      SizeStepLine(enc, p, total);
    }
  }

  /**
   * The decoded size is the line count sum capped at `UU_DECODE_MAX`, and a
   * buffer of that size is exactly filled by the capped decoder: the
   * `decoded_len != dec_sz` check of `parse_sgml` never fires.
   */
  lemma UuDecodedSizeFills(enc: seq<byte>)
    ensures var d := UuDecodedSize(enc);
            && d.size == Min(UUCodec.LineCountSum(enc, 0), UuDecodeMax)
            && (d.capped <==> UUCodec.LineCountSum(enc, 0) > UuDecodeMax)
            && |UUCodec.Decode(enc, d.size)| == d.size
  {
    DecodedSizeFromSpec(enc, 0, 0);
    UUCodec.DecodeLength(enc, UuDecodedSize(enc).size);
  }

  // ---------------------------------------------------------------------------
  // Plain text (`strip_wrappers`)
  // ---------------------------------------------------------------------------

  /**
   * One round of `strip_wrappers`: drop `open` if the span starts with it
   * (then leading whitespace), and independently drop `close` if what is left
   * ends with it (then trailing whitespace).
   */
  function StripTag(buf: seq<byte>, t: Span, open: seq<byte>, close: seq<byte>): (r: Span)
    requires t.End() <= |buf|
    ensures t.start <= r.start && r.End() <= t.End()
    ensures Trimmed(buf, t) ==> Trimmed(buf, r)
  {
    var a := AfterOpen(buf, t, open);
    if EndsWith(buf, a, close) then RTrimSpan(buf, Span(a.start, a.len - |close|)) else a
  }

  /** The first half of a round: the span once `open`, if it starts it, is dropped. */
  function AfterOpen(buf: seq<byte>, t: Span, open: seq<byte>): (a: Span)
    requires t.End() <= |buf|
    ensures t.start <= a.start && a.End() == t.End()
  {
    if StartsWith(buf, t, open) then LTrimSpan(buf, Span(t.start + |open|, t.len - |open|)) else t
  }

  /**
   * `strip_wrappers(start, end)`: trim the text, then remove the `<PDF>`,
   * `<XBRL>` and `<XML>` wrappers in that order. The result lies inside the
   * text and has no whitespace at either edge.
   */
  function StripWrappers(buf: seq<byte>, s: nat, e: nat): (r: Span)
    requires s <= e <= |buf|
    ensures s <= r.start && r.End() <= e
    ensures Trimmed(buf, r)
  {
    var t := TrimSpan(buf, Span(s, e - s));
    var t1 := StripTag(buf, t, Lit("<PDF>"), Lit("</PDF>"));
    var t2 := StripTag(buf, t1, Lit("<XBRL>"), Lit("</XBRL>"));
    StripTag(buf, t2, Lit("<XML>"), Lit("</XML>"))
  }

  predicate StartsWith(buf: seq<byte>, t: Span, w: seq<byte>)
    requires t.End() <= |buf|
  {
    t.len >= |w| && buf[t.start..t.start + |w|] == w
  }

  predicate EndsWith(buf: seq<byte>, t: Span, w: seq<byte>)
    requires t.End() <= |buf|
  {
    t.len >= |w| && buf[t.End() - |w|..t.End()] == w
  }

  /**
   * A round drops `open` exactly when the span starts with it, and then only
   * whitespace after it; it drops `close` exactly when the span left after
   * the opening tag ends with it, and then only whitespace before it.
   */
  lemma StripTagRemoves(buf: seq<byte>, t: Span, open: seq<byte>, close: seq<byte>)
    requires t.End() <= |buf|
    ensures var a := AfterOpen(buf, t, open);
            var r := StripTag(buf, t, open, close);
            && r.start == a.start && a.End() == t.End()
            && (StartsWith(buf, t, open) ==>
                  a.start >= t.start + |open| && forall k :: t.start + |open| <= k < a.start ==> IsSpace(buf[k]))
            && (!StartsWith(buf, t, open) ==> a == t)
            && (EndsWith(buf, a, close) ==>
                  r.End() <= a.End() - |close| && forall k :: r.End() <= k < a.End() - |close| ==> IsSpace(buf[k]))
            && (!EndsWith(buf, a, close) ==> r == a)
  {
    if StartsWith(buf, t, open) {
      LTrimDropsSpace(buf, Span(t.start + |open|, t.len - |open|));
    }
    var a := AfterOpen(buf, t, open);
    if EndsWith(buf, a, close) {
      RTrimDropsSpace(buf, Span(a.start, a.len - |close|));
    }
  }

  /** A round whose tags the span neither starts nor ends with leaves it alone. */
  lemma StripTagAbsent(buf: seq<byte>, t: Span, open: seq<byte>, close: seq<byte>)
    requires t.End() <= |buf|
    requires !StartsWith(buf, t, open) && !EndsWith(buf, t, close)
    ensures StripTag(buf, t, open, close) == t
  {
  }

  /** A span that no wrapper tag starts or ends. */
  predicate Unwrapped(buf: seq<byte>, t: Span)
    requires t.End() <= |buf|
  {
    && !StartsWith(buf, t, Lit("<PDF>")) && !EndsWith(buf, t, Lit("</PDF>"))
    && !StartsWith(buf, t, Lit("<XBRL>")) && !EndsWith(buf, t, Lit("</XBRL>"))
    && !StartsWith(buf, t, Lit("<XML>")) && !EndsWith(buf, t, Lit("</XML>"))
  }

  /** Text that carries no wrapper is only trimmed. */
  lemma StripWrappersPlain(buf: seq<byte>, s: nat, e: nat)
    requires s <= e <= |buf|
    requires Unwrapped(buf, TrimSpan(buf, Span(s, e - s)))
    ensures StripWrappers(buf, s, e) == TrimSpan(buf, Span(s, e - s))
  {
    var t := TrimSpan(buf, Span(s, e - s));
    StripTagAbsent(buf, t, Lit("<PDF>"), Lit("</PDF>"));
    StripTagAbsent(buf, t, Lit("<XBRL>"), Lit("</XBRL>"));
    StripTagAbsent(buf, t, Lit("<XML>"), Lit("</XML>"));
  }

  // ---------------------------------------------------------------------------
  // Documents and the document table (`document`, `docs_push`)
  // ---------------------------------------------------------------------------

  /** `scan_state`. */
  datatype ScanState = Between | InDocMeta | InText

  /** `document_meta`: the value spans of `<TYPE>`, `<SEQUENCE>`, `<FILENAME>` and `<DESCRIPTION>`. */
  datatype DocMeta = DocMeta(docType: Span, sequence: Span, filename: Span, description: Span)

  /**
   * A document's `decoded` buffer: none (a null pointer), the bytes the
   * decoder wrote, or, in the older scanner only, a decoder run that needs
   * `needed` bytes of a `room`-byte buffer and so writes past its end.
   */
  datatype Payload = NoPayload | Decoded(bytes: seq<byte>) | Overrun(needed: nat, room: nat)

  /**
   * `document`: its metadata, its content as an offset and a length into the
   * input, whether the content is uuencoded, and the decoded payload.
   */
  datatype Document = Document(meta: DocMeta, contentStart: nat, contentLen: nat, isUuencoded: bool, payload: Payload)

  /** `(document){0}`; the null `content_start` is offset 0. */
  const EmptyDocument := Document(DocMeta(EmptySpan, EmptySpan, EmptySpan, EmptySpan), 0, 0, false, NoPayload)

  /** `DOCS_INITIAL_CAP`. */
  const DocsInitialCap: nat := 64

  /**
   * The capacity `docs_push` leaves the table with when it appends to a table
   * of `count` documents and capacity `cap`, or None when the `realloc` that
   * doubles a full table fails; the push is made at the `</DOCUMENT>` that
   * ends at offset `at`. A successful push always has room for the new
   * document.
   */
  function DocsPushCap(count: nat, cap: nat, at: nat, alloc: Allocator): (r: Option<nat>)
    ensures count <= cap && r.Some? ==> count < r.value
    ensures count < cap ==> r == Some(cap)
    ensures r.None? ==> count == cap
  {
    if count == cap then
      var newCap := if cap == 0 then DocsInitialCap else 2 * cap;
      if alloc(DocsTable(newCap, at)) then Some(newCap) else None
    else Some(cap)
  }

  /** `sgml_parse_result`: the committed documents, the table's capacity and the status. */
  class SgmlParseResult {
    var docs: seq<Document>
    var cap: nat
    var status: Status

    /** The table `parse_sgml` starts with: room for 64 documents, or none when `malloc` fails. */
    constructor (alloc: Allocator)
      ensures docs == [] && status == Ok
      ensures cap == if alloc(DocsInitial) then DocsInitialCap else 0
    {
      docs := [];
      cap := if alloc(DocsInitial) then DocsInitialCap else 0;
      status := Ok;
    }

    /**
     * `docs_push`: append `doc`, doubling a full table first. When the table
     * cannot grow, nothing changes and the result is false.
     */
    method Push(doc: Document, at: nat, alloc: Allocator) returns (ok: bool)
      requires |docs| <= cap
      modifies this
      ensures ok == DocsPushCap(|old(docs)|, old(cap), at, alloc).Some?
      ensures ok ==> docs == old(docs) + [doc] && cap == DocsPushCap(|old(docs)|, old(cap), at, alloc).value
      ensures !ok ==> docs == old(docs) && cap == old(cap)
      ensures status == old(status) && |docs| <= cap
    {
      if |docs| == cap {
        var newCap := if cap == 0 then DocsInitialCap else 2 * cap;
        if !alloc(DocsTable(newCap, at)) {
          return false;
        }
        cap := newCap;
      }
      docs := docs + [doc];
      return true;
    }
  }

  // ---------------------------------------------------------------------------
  // Tag dispatch
  // ---------------------------------------------------------------------------

  /** The tags the scanner acts on. */
  datatype Tag = DocOpen | DocClose | TextOpen | TextClose | TypeTag | SequenceTag | FilenameTag | DescriptionTag

  /** The bytes of a tag after its '<' (the `SUFFIX_*` constants). */
  function Suffix(t: Tag): (r: seq<byte>)
    ensures |r| == TagLen(t) - 1
  {
    match t
    case DocOpen => Lit("DOCUMENT>")
    case DocClose => Lit("/DOCUMENT>")
    case TextOpen => Lit("TEXT>")
    case TextClose => Lit("/TEXT>")
    case TypeTag => Lit("TYPE>")
    case SequenceTag => Lit("SEQUENCE>")
    case FilenameTag => Lit("FILENAME>")
    case DescriptionTag => Lit("DESCRIPTION>")
  }

  function TagText(t: Tag): (r: seq<byte>)
    ensures |r| == TagLen(t)
  {
    [LT] + Suffix(t)
  }

  function TagLen(t: Tag): nat
  {
    match t
    case DocOpen => 10
    case DocClose => 11
    case TextOpen => 6
    case TextClose => 7
    case TypeTag => 6
    case SequenceTag => 10
    case FilenameTag => 10
    case DescriptionTag => 13
  }

  /**
   * The length test in front of each tag comparison: src/secsgml.c asks for
   * the whole tag to fit (`remain >= n`), the older secsgml.c for one byte
   * more (`remain > n`).
   */
  predicate Room(v: Variant, remain: nat, n: nat)
  {
    if v.Legacy? then remain > n else remain >= n
  }

  /**
   * The dispatch of `parse_sgml` at a '<' at offset `lt` with at least one
   * byte after it: on the next byte, then (for `D`, `/` and `T`) on which of
   * the tags starting with it follows.
   */
  function TagAt(buf: seq<byte>, lt: nat, v: Variant): (r: Option<Tag>)
    requires lt + 2 <= |buf|
    ensures r.Some? ==> lt + TagLen(r.value) <= |buf| && buf[lt + 1..lt + TagLen(r.value)] == Suffix(r.value)
    ensures r.Some? && v.Legacy? && r.value != DocOpen ==> lt + TagLen(r.value) < |buf|
  {
    var remain := |buf| - lt;
    var c1 := buf[lt + 1];
    if c1 == 'D' as int then TagAfterD(buf, lt, v)
    else if c1 == '/' as int then TagAfterSlash(buf, lt, v)
    else if c1 == 'T' as int then TagAfterT(buf, lt, v)
    else if c1 == 'S' as int && Room(v, remain, 10) && buf[lt + 1..lt + 10] == Suffix(SequenceTag) then Some(SequenceTag)
    else if c1 == 'F' as int && Room(v, remain, 10) && buf[lt + 1..lt + 10] == Suffix(FilenameTag) then Some(FilenameTag)
    else None
  }

  /**
   * `<D...`: `<DOCUMENT>` or `<DESCRIPTION>`. Before `<DOCUMENT>` both copies
   * test `remain >= 10` (the older one writes it `remain > 9`).
   */
  function TagAfterD(buf: seq<byte>, lt: nat, v: Variant): (r: Option<Tag>)
    requires lt + 2 <= |buf|
    ensures r.Some? ==> lt + TagLen(r.value) <= |buf| && buf[lt + 1..lt + TagLen(r.value)] == Suffix(r.value)
    ensures r.Some? && v.Legacy? && r.value != DocOpen ==> lt + TagLen(r.value) < |buf|
  {
    var remain := |buf| - lt;
    if remain >= 10 && buf[lt + 1..lt + 10] == Suffix(DocOpen) then Some(DocOpen)
    else if Room(v, remain, 13) && buf[lt + 1..lt + 13] == Suffix(DescriptionTag) then Some(DescriptionTag)
    else None
  }

  /** `</...`: `</DOCUMENT>` or `</TEXT>`, told apart by the byte after the slash. */
  function TagAfterSlash(buf: seq<byte>, lt: nat, v: Variant): (r: Option<Tag>)
    requires lt + 2 <= |buf|
    ensures r.Some? ==> lt + TagLen(r.value) <= |buf| && buf[lt + 1..lt + TagLen(r.value)] == Suffix(r.value)
    ensures r.Some? && v.Legacy? && r.value != DocOpen ==> lt + TagLen(r.value) < |buf|
  {
    var remain := |buf| - lt;
    if remain < 3 then None
    else if buf[lt + 2] == 'D' as int && Room(v, remain, 11) && buf[lt + 1..lt + 11] == Suffix(DocClose) then Some(DocClose)
    else if buf[lt + 2] == 'T' as int && Room(v, remain, 7) && buf[lt + 1..lt + 7] == Suffix(TextClose) then Some(TextClose)
    else None
  }

  /** `<T...`: `<TEXT>` or `<TYPE>`. */
  function TagAfterT(buf: seq<byte>, lt: nat, v: Variant): (r: Option<Tag>)
    requires lt + 2 <= |buf|
    ensures r.Some? ==> lt + TagLen(r.value) <= |buf| && buf[lt + 1..lt + TagLen(r.value)] == Suffix(r.value)
    ensures r.Some? && v.Legacy? && r.value != DocOpen ==> lt + TagLen(r.value) < |buf|
  {
    var remain := |buf| - lt;
    if Room(v, remain, 6) && buf[lt + 1..lt + 6] == Suffix(TextOpen) then Some(TextOpen)
    else if Room(v, remain, 6) && buf[lt + 1..lt + 6] == Suffix(TypeTag) then Some(TypeTag)
    else None
  }

  /**
   * Tag `t` is recognised at `lt`: its text occurs there, and in the older
   * scanner at least one byte follows it (except for `<DOCUMENT>`).
   */
  predicate Recognised(buf: seq<byte>, lt: nat, v: Variant, t: Tag)
  {
    OccursAt(buf, lt, TagText(t)) && (!v.Legacy? || t == DocOpen || lt + TagLen(t) < |buf|)
  }

  /** The dispatch recognises exactly the tags whose text is at `lt`. */
  lemma TagAtSound(buf: seq<byte>, lt: nat, v: Variant)
    requires lt + 2 <= |buf| && buf[lt] == LT
    ensures TagAt(buf, lt, v).Some? ==> Recognised(buf, lt, v, TagAt(buf, lt, v).value)
  {
    if TagAt(buf, lt, v).Some? {
      var t := TagAt(buf, lt, v).value;
      assert buf[lt..lt + TagLen(t)] == [buf[lt]] + buf[lt + 1..lt + TagLen(t)];
    }
  }

  /** The first two bytes of every tag suffix. */
  lemma SuffixHeads()
    ensures Suffix(DocOpen)[0] == 'D' as int && Suffix(DocOpen)[1] == 'O' as int
    ensures Suffix(DescriptionTag)[0] == 'D' as int && Suffix(DescriptionTag)[1] == 'E' as int
    ensures Suffix(DocClose)[0] == '/' as int && Suffix(DocClose)[1] == 'D' as int
    ensures Suffix(TextClose)[0] == '/' as int && Suffix(TextClose)[1] == 'T' as int
    ensures Suffix(TextOpen)[0] == 'T' as int && Suffix(TextOpen)[1] == 'E' as int
    ensures Suffix(TypeTag)[0] == 'T' as int && Suffix(TypeTag)[1] == 'Y' as int
    ensures Suffix(SequenceTag)[0] == 'S' as int
    ensures Suffix(FilenameTag)[0] == 'F' as int
  {
  }

  /** A recognised tag's text determines the bytes the dispatch looks at. */
  lemma RecognisedBytes(buf: seq<byte>, lt: nat, v: Variant, t: Tag)
    requires lt + 2 <= |buf| && Recognised(buf, lt, v, t)
    ensures buf[lt + 1..lt + TagLen(t)] == Suffix(t)
    ensures buf[lt + 1] == Suffix(t)[0] && buf[lt + 2] == Suffix(t)[1]
  {
    assert buf[lt + 1..lt + TagLen(t)] == buf[lt..lt + TagLen(t)][1..];
  }

  lemma TagAtComplete(buf: seq<byte>, lt: nat, v: Variant, t: Tag)
    requires lt + 2 <= |buf|
    requires Recognised(buf, lt, v, t)
    ensures TagAt(buf, lt, v) == Some(t)
  {
    RecognisedBytes(buf, lt, v, t);
    SuffixHeads();
    match t
    case DocOpen =>
      assert TagAfterD(buf, lt, v) == Some(t);
    case DescriptionTag =>
      assert buf[lt + 1..lt + 10][1] == buf[lt + 2];
      assert TagAfterD(buf, lt, v) == Some(t);
    case DocClose =>
      assert TagAfterSlash(buf, lt, v) == Some(t);
    case TextClose =>
      assert TagAfterSlash(buf, lt, v) == Some(t);
    case TextOpen =>
      assert TagAfterT(buf, lt, v) == Some(t);
    case TypeTag =>
      assert buf[lt + 1..lt + 6][1] == buf[lt + 2];
      assert TagAfterT(buf, lt, v) == Some(t);
    case SequenceTag =>
    case FilenameTag =>
  }

  /** `TagAt` recognises tag `t` at a '<' exactly when `Recognised` says so. */
  lemma TagAtRecognises(buf: seq<byte>, lt: nat, v: Variant, t: Tag)
    requires lt + 2 <= |buf| && buf[lt] == LT
    ensures TagAt(buf, lt, v) == Some(t) <==> Recognised(buf, lt, v, t)
  {
    TagAtSound(buf, lt, v);
    if Recognised(buf, lt, v, t) {
      TagAtComplete(buf, lt, v, t);
    }
  }

  // ---------------------------------------------------------------------------
  // The scanning loop, as functions
  // ---------------------------------------------------------------------------

  /**
   * The variables of the loop of `parse_sgml`: the cursor `p`, the state, the
   * document being built, and the result's table and status.
   */
  datatype Scan = Scan(p: nat, state: ScanState, cur: Document, docs: seq<Document>, cap: nat, status: Status)

  /** What holds of the loop variables at the top of every iteration. */
  predicate Good(buf: seq<byte>, s: Scan)
  {
    && s.p <= |buf|
    && (s.state == InText ==> s.cur.contentStart <= s.p)
    && |s.docs| <= s.cap
  }

  /** One iteration's result; `halt` when `parse_sgml` returns from inside the loop. */
  datatype Outcome = Outcome(s: Scan, halt: bool)

  /** The metadata with the field of a metadata tag set to `value`. */
  function SetMeta(m: DocMeta, t: Tag, value: Span): DocMeta
  {
    match t
    case TypeTag => m.(docType := value)
    case SequenceTag => m.(sequence := value)
    case FilenameTag => m.(filename := value)
    case DescriptionTag => m.(description := value)
    case _ => m
  }

  predicate IsMetaTag(t: Tag)
  {
    t == TypeTag || t == SequenceTag || t == FilenameTag || t == DescriptionTag
  }

  /**
   * The `<TEXT>` branch: the content starts after the tag. Both copies keep
   * `content_len` from an earlier text block of the same document; the
   * corrected scanner resets it.
   */
  function OpenText(v: Variant, cur: Document, next: nat): Document
  {
    if v.Corrected? then cur.(contentStart := next, contentLen := 0) else cur.(contentStart := next)
  }

  /**
   * The `</TEXT>` branch: locate a uuencoded region in the text that runs from
   * `cur.contentStart` to `lt`, and decode it, or else strip the text's
   * wrappers. Returns the document and the result's status.
   */
  function CloseText(buf: seq<byte>, v: Variant, alloc: Allocator, cur: Document, lt: nat, status: Status): (Document, Status)
    requires cur.contentStart <= lt <= |buf|
  {
    match FindUuBounds(buf, cur.contentStart, lt)
    case Some(r) =>
      var enc := buf[r.start..r.End()];
      var cur1 := cur.(isUuencoded := true, contentStart := r.start, contentLen := r.len);
      if v.Legacy? then CloseUuLegacy(enc, lt, alloc, cur1, status) else CloseUuCurrent(enc, lt, alloc, cur1, status)
    case None =>
      var w := StripWrappers(buf, cur.contentStart, lt);
      (cur.(isUuencoded := false, contentStart := w.start, contentLen := w.len), status)
  }

  /**
   * src/secsgml.c: size the payload with `uu_decoded_size`, then decode it
   * into a buffer of that size. Capping, a short decode and a failed `malloc`
   * set the status.
   */
  function CloseUuCurrent(enc: seq<byte>, at: nat, alloc: Allocator, cur: Document, status: Status): (Document, Status)
  {
    var d := UuDecodedSize(enc);
    var status1 := if d.capped then Truncated else status;
    if alloc(DecodedBuffer(if d.size == 0 then 1 else d.size, at)) then
      var out := UUCodec.Decode(enc, d.size);
      (cur.(payload := Decoded(out)), if |out| != d.size then Truncated else status1)
    else (cur.(payload := NoPayload), OutOfMemory)
  }

  /**
   * The older secsgml.c: decode into a buffer as long as the encoded text,
   * with no capacity bound; a failed `malloc` leaves no payload and no trace.
   * When the line counts add up to more than the buffer holds, the C code
   * writes past its end; the model records that as `Overrun`.
   */
  function CloseUuLegacy(enc: seq<byte>, at: nat, alloc: Allocator, cur: Document, status: Status): (Document, Status)
  {
    var room := if |enc| == 0 then 1 else |enc|;
    if alloc(DecodedBuffer(room, at)) then
      var needed := LegacyUUCodec.LegacyCountSum(enc, 0);
      (cur.(payload := if needed <= room then Decoded(LegacyUUCodec.LegacyDecode(enc)) else Overrun(needed, room)), status)
    else (cur.(payload := NoPayload), status)
  }

  /**
   * The `</DOCUMENT>` branch in InDocMeta or InText: push the document as it
   * is and go back to Between. When the push fails, src/secsgml.c sets the
   * status to out-of-memory and returns; the older copy drops the document.
   */
  function CloseDocument(v: Variant, alloc: Allocator, s: Scan, next: nat): Outcome
  {
    match DocsPushCap(|s.docs|, s.cap, next, alloc)
    case Some(c) => Outcome(s.(p := next, state := Between, cur := EmptyDocument, docs := s.docs + [s.cur], cap := c), false)
    case None =>
      if v.Legacy? then Outcome(s.(p := next, state := Between, cur := EmptyDocument), false)
      else Outcome(s.(status := OutOfMemory), true)
  }

  /** One iteration of the loop of `parse_sgml`, at the '<' found at `lt`. */
  function Act(buf: seq<byte>, v: Variant, alloc: Allocator, s: Scan, lt: nat): (o: Outcome)
    requires Good(buf, s) && s.p <= lt && lt + 2 <= |buf|
    ensures Good(buf, o.s)
    ensures !o.halt ==> lt < o.s.p
  {
    match TagAt(buf, lt, v)
    case None => Outcome(s.(p := lt + 1), false)
    case Some(t) => ActTag(buf, v, alloc, s, lt, t)
  }

  /**
   * The iteration at a recognised tag `t`: each tag acts only in its own
   * state and otherwise is only stepped over.
   */
  function ActTag(buf: seq<byte>, v: Variant, alloc: Allocator, s: Scan, lt: nat, t: Tag): (o: Outcome)
    requires Good(buf, s) && s.p <= lt && lt + TagLen(t) <= |buf|
    ensures Good(buf, o.s)
    ensures !o.halt ==> lt < o.s.p
  {
    var next := lt + TagLen(t);
    if t == DocOpen then
      Outcome(if s.state == Between then s.(p := next, state := InDocMeta, cur := EmptyDocument) else s.(p := next), false)
    else if IsMetaTag(t) then
      Outcome(if s.state == InDocMeta
              then s.(p := next, cur := s.cur.(meta := SetMeta(s.cur.meta, t, ValueToEol(buf, next, |buf|))))
              else s.(p := next), false)
    else if t == TextOpen then
      Outcome(if s.state == InDocMeta then s.(p := next, state := InText, cur := OpenText(v, s.cur, next)) else s.(p := next), false)
    else if t == TextClose then
      if s.state == InText then
        var (cur', status') := CloseText(buf, v, alloc, s.cur, lt, s.status);
        Outcome(s.(p := next, state := InDocMeta, cur := cur', status := status'), false)
      else Outcome(s.(p := next), false)
    else if s.state != Between then CloseDocument(v, alloc, s, next)
    else Outcome(s.(p := next), false)
  }

  /** The loop of `parse_sgml` from the loop variables `s` to its exit. */
  function RunFrom(buf: seq<byte>, v: Variant, alloc: Allocator, s: Scan): (r: Scan)
    requires Good(buf, s)
    decreases |buf| - s.p
  {
    if s.p == |buf| then s
    else match FindByte(buf, s.p, |buf|, LT)
      case None => s
      case Some(lt) =>
        if |buf| - lt < 2 then s
        else
          var o := Act(buf, v, alloc, s, lt);
          if o.halt then o.s else RunFrom(buf, v, alloc, o.s)
  }

  /** The loop variables before the first iteration. */
  function Start(alloc: Allocator): Scan
  {
    Scan(0, Between, EmptyDocument, [], if alloc(DocsInitial) then DocsInitialCap else 0, Ok)
  }

  /**
   * `parse_sgml(buf, len)`: the result's documents, capacity and status.
   * src/secsgml.c gives up at once when the first table cannot be allocated;
   * the older copy scans on with no table.
   */
  function Parse(buf: seq<byte>, v: Variant, alloc: Allocator): Scan
  {
    if !v.Legacy? && !alloc(DocsInitial) then Start(alloc).(status := OutOfMemory)
    else RunFrom(buf, v, alloc, Start(alloc))
  }

  // ---------------------------------------------------------------------------
  // The scanning loop, as the C code runs it
  // ---------------------------------------------------------------------------

  /** The `</TEXT>` branch of `parse_sgml`, decoding into freshly allocated buffers. */
  method CloseTextBlock(buf: seq<byte>, v: Variant, alloc: Allocator, cur: Document, lt: nat, status: Status)
    returns (cur': Document, status': Status)
    requires cur.contentStart <= lt <= |buf|
    ensures (cur', status') == CloseText(buf, v, alloc, cur, lt, status)
  {
    var bounds := FindUuBounds(buf, cur.contentStart, lt);
    if bounds.None? {
      var w := StripWrappers(buf, cur.contentStart, lt);
      return cur.(isUuencoded := false, contentStart := w.start, contentLen := w.len), status;
    }
    var r := bounds.value;
    var enc := buf[r.start..r.End()];
    var cur1 := cur.(isUuencoded := true, contentStart := r.start, contentLen := r.len);
    if v.Legacy? {
      cur', status' := CloseUuLegacyBlock(enc, lt, alloc, cur1, status);
    } else {
      cur', status' := CloseUuCurrentBlock(enc, lt, alloc, cur1, status);
    }
  }

  /** src/secsgml.c's decoding of the uuencoded region `enc`. */
  method CloseUuCurrentBlock(enc: seq<byte>, at: nat, alloc: Allocator, cur: Document, status: Status)
    returns (cur': Document, status': Status)
    ensures (cur', status') == CloseUuCurrent(enc, at, alloc, cur, status)
  {
    var d := UuDecodedSize(enc);
    status' := if d.capped then Truncated else status;
    var room := if d.size == 0 then 1 else d.size;
    if alloc(DecodedBuffer(room, at)) {
      var out := new byte[room];
      var n := UUCodec.Uudecode(enc, out, d.size);
      cur' := cur.(payload := Decoded(out[..n]));
      if n != d.size {
        status' := Truncated;
      }
    } else {
      cur', status' := cur.(payload := NoPayload), OutOfMemory;
    }
  }

  /** The older secsgml.c's decoding of the uuencoded region `enc`. */
  method CloseUuLegacyBlock(enc: seq<byte>, at: nat, alloc: Allocator, cur: Document, status: Status)
    returns (cur': Document, status': Status)
    ensures (cur', status') == CloseUuLegacy(enc, at, alloc, cur, status)
  {
    status' := status;
    var room := if |enc| == 0 then 1 else |enc|;
    if alloc(DecodedBuffer(room, at)) {
      var out := new byte[room];
      var needed := LegacyUUCodec.LegacyCountSum(enc, 0);
      if needed <= room {
        var n := LegacyUUCodec.LegacyUudecode(enc, out);
        cur' := cur.(payload := Decoded(out[..n]));
      } else {
        // the C decoder would write `needed` bytes into `room`
        cur' := cur.(payload := Overrun(needed, room));
      }
    } else {
      cur' := cur.(payload := NoPayload);
    }
  }

  /** One iteration of the loop of `parse_sgml` at the '<' at `lt`. */
  method Step(buf: seq<byte>, v: Variant, alloc: Allocator, result: SgmlParseResult,
              p: nat, state: ScanState, cur: Document, lt: nat)
    returns (p': nat, state': ScanState, cur': Document, halt: bool)
    requires Good(buf, Scan(p, state, cur, result.docs, result.cap, result.status))
    requires p <= lt && lt + 2 <= |buf|
    modifies result
    ensures Act(buf, v, alloc, Scan(p, state, cur, old(result.docs), old(result.cap), old(result.status)), lt)
            == Outcome(Scan(p', state', cur', result.docs, result.cap, result.status), halt)
  {
    var tag := TagAt(buf, lt, v);
    if tag.None? {
      return lt + 1, state, cur, false;
    }
    p', state', cur', halt := StepTag(buf, v, alloc, result, p, state, cur, lt, tag.value);
  }

  /** The iteration at a recognised tag: update the state and the document being built. */
  method StepTag(buf: seq<byte>, v: Variant, alloc: Allocator, result: SgmlParseResult,
                 p: nat, state: ScanState, cur: Document, lt: nat, t: Tag)
    returns (p': nat, state': ScanState, cur': Document, halt: bool)
    requires Good(buf, Scan(p, state, cur, result.docs, result.cap, result.status))
    requires p <= lt && lt + TagLen(t) <= |buf|
    modifies result
    ensures ActTag(buf, v, alloc, Scan(p, state, cur, old(result.docs), old(result.cap), old(result.status)), lt, t)
            == Outcome(Scan(p', state', cur', result.docs, result.cap, result.status), halt)
  {
    if t == TextClose {
      p', state', cur', halt := StepTextClose(buf, v, alloc, result, p, state, cur, lt);
    } else if t == DocOpen || IsMetaTag(t) || t == TextOpen {
      p', state', cur' := StepOpenTag(buf, v, alloc, result, p, state, cur, lt, t);
      halt := false;
    } else if state != Between {
      assert ActTag(buf, v, alloc, Scan(p, state, cur, result.docs, result.cap, result.status), lt, t)
          == CloseDocument(v, alloc, Scan(p, state, cur, result.docs, result.cap, result.status), lt + TagLen(t));
      p', state', cur', halt := PushDocument(v, alloc, result, p, state, cur, lt + TagLen(t));
    } else {
      p', state', cur', halt := lt + TagLen(t), state, cur, false;
    }
  }

  /** The `<DOCUMENT>`, metadata and `<TEXT>` branches, which leave the result alone. */
  method StepOpenTag(buf: seq<byte>, v: Variant, alloc: Allocator, result: SgmlParseResult,
                     p: nat, state: ScanState, cur: Document, lt: nat, t: Tag)
    returns (p': nat, state': ScanState, cur': Document)
    requires Good(buf, Scan(p, state, cur, result.docs, result.cap, result.status))
    requires p <= lt && lt + TagLen(t) <= |buf|
    requires t == DocOpen || IsMetaTag(t) || t == TextOpen
    ensures ActTag(buf, v, alloc, Scan(p, state, cur, result.docs, result.cap, result.status), lt, t)
            == Outcome(Scan(p', state', cur', result.docs, result.cap, result.status), false)
  {
    p', state', cur' := lt + TagLen(t), state, cur;
    if t == DocOpen {
      if state == Between {
        cur' := EmptyDocument;
        state' := InDocMeta;
      }
    } else if IsMetaTag(t) {
      if state == InDocMeta {
        cur' := cur.(meta := SetMeta(cur.meta, t, ValueToEol(buf, p', |buf|)));
      }
    } else if state == InDocMeta {
      cur' := OpenText(v, cur, p');
      state' := InText;
    }
  }

  /** The `</TEXT>` branch, which may set the result's status. */
  method StepTextClose(buf: seq<byte>, v: Variant, alloc: Allocator, result: SgmlParseResult,
                       p: nat, state: ScanState, cur: Document, lt: nat)
    returns (p': nat, state': ScanState, cur': Document, halt: bool)
    requires Good(buf, Scan(p, state, cur, result.docs, result.cap, result.status))
    requires p <= lt && lt + TagLen(TextClose) <= |buf|
    modifies result
    ensures ActTag(buf, v, alloc, Scan(p, state, cur, old(result.docs), old(result.cap), old(result.status)), lt, TextClose)
            == Outcome(Scan(p', state', cur', result.docs, result.cap, result.status), halt)
  {
    p', state', cur', halt := lt + TagLen(TextClose), state, cur, false;
    if state == InText {
      var status';
      cur', status' := CloseTextBlock(buf, v, alloc, cur, lt, result.status);
      result.status := status';
      state' := InDocMeta;
    }
  }

  /** The `</DOCUMENT>` branch in InDocMeta or InText. */
  method PushDocument(v: Variant, alloc: Allocator, result: SgmlParseResult, p: nat, state: ScanState, cur: Document, next: nat)
    returns (p': nat, state': ScanState, cur': Document, halt: bool)
    requires |result.docs| <= result.cap
    modifies result
    ensures CloseDocument(v, alloc, Scan(p, state, cur, old(result.docs), old(result.cap), old(result.status)), next)
            == Outcome(Scan(p', state', cur', result.docs, result.cap, result.status), halt)
  {
    var ok := result.Push(cur, next, alloc);
    if ok || v.Legacy? {
      return next, Between, EmptyDocument, false;
    }
    result.status := OutOfMemory;
    return p, state, cur, true;
  }

  /**
   * `parse_sgml`: allocate the document table, then jump from '<' to '<'
   * until the input runs out, a '<' is the last byte, or (src/secsgml.c only)
   * a push fails. The result is what `Parse` specifies.
   */
  method ParseSgml(buf: seq<byte>, v: Variant, alloc: Allocator) returns (result: SgmlParseResult)
    ensures fresh(result)
    ensures var r := Parse(buf, v, alloc);
            result.docs == r.docs && result.cap == r.cap && result.status == r.status
  {
    result := new SgmlParseResult(alloc);
    if !v.Legacy? && result.cap == 0 {
      result.status := OutOfMemory;
      return;
    }
    var p: nat := 0;
    var state := Between;
    var cur := EmptyDocument;
    while p < |buf|
      invariant Good(buf, Scan(p, state, cur, result.docs, result.cap, result.status))
      invariant RunFrom(buf, v, alloc, Scan(p, state, cur, result.docs, result.cap, result.status)) == Parse(buf, v, alloc)
      decreases |buf| - p
    {
      var found := FindByte(buf, p, |buf|, LT);
      if found.None? {
        break;
      }
      var lt := found.value;
      if |buf| - lt < 2 {
        break;
      }
      var halt;
      p, state, cur, halt := Step(buf, v, alloc, result, p, state, cur, lt);
      if halt {
        return;
      }
    }
  }

  // ---------------------------------------------------------------------------
  // Properties of the scanning loop
  // ---------------------------------------------------------------------------

  /** The scanner's transition table: the state after a tag (or no tag) in a state. */
  function NextState(st: ScanState, tag: Option<Tag>): ScanState
  {
    match tag
    case Some(DocOpen) => if st == Between then InDocMeta else st
    case Some(TextOpen) => if st == InDocMeta then InText else st
    case Some(TextClose) => if st == InText then InDocMeta else st
    case Some(DocClose) => if st == Between then st else Between
    case _ => st
  }

  /** The transition table at a recognised tag. */
  lemma ActTagFollowsTable(buf: seq<byte>, v: Variant, alloc: Allocator, s: Scan, lt: nat, t: Tag)
    requires Good(buf, s) && s.p <= lt && lt + TagLen(t) <= |buf|
    ensures var o := ActTag(buf, v, alloc, s, lt, t);
            !o.halt ==> o.s.state == NextState(s.state, Some(t))
    ensures var o := ActTag(buf, v, alloc, s, lt, t);
            o.halt <==> !v.Legacy? && t == DocClose && s.state != Between && DocsPushCap(|s.docs|, s.cap, lt + TagLen(t), alloc).None?
  {
  }

  /**
   * Every iteration follows the transition table, unless src/secsgml.c
   * returns because a `</DOCUMENT>` push failed.
   */
  lemma ActFollowsTable(buf: seq<byte>, v: Variant, alloc: Allocator, s: Scan, lt: nat)
    requires Good(buf, s) && s.p <= lt && lt + 2 <= |buf|
    ensures var o := Act(buf, v, alloc, s, lt);
            !o.halt ==> o.s.state == NextState(s.state, TagAt(buf, lt, v))
    ensures var o := Act(buf, v, alloc, s, lt);
            o.halt <==> && !v.Legacy? && TagAt(buf, lt, v) == Some(DocClose) && s.state != Between
                        && DocsPushCap(|s.docs|, s.cap, lt + TagLen(DocClose), alloc).None?
  {
    var tag := TagAt(buf, lt, v);
    if tag.Some? {
      ActTagFollowsTable(buf, v, alloc, s, lt, tag.value);
    }
  }

  /**
   * `<TYPE>`, `<SEQUENCE>`, `<FILENAME>` and `<DESCRIPTION>` set their field
   * to the rest of their line in InDocMeta, overwriting an earlier value,
   * and in any other state are only stepped over.
   */
  lemma ActMetaTag(buf: seq<byte>, v: Variant, alloc: Allocator, s: Scan, lt: nat)
    requires Good(buf, s) && s.p <= lt && lt + 2 <= |buf|
    requires TagAt(buf, lt, v).Some? && IsMetaTag(TagAt(buf, lt, v).value)
    ensures var t := TagAt(buf, lt, v).value;
            var next := lt + TagLen(t);
            Act(buf, v, alloc, s, lt)
            == Outcome(if s.state == InDocMeta
                       then s.(p := next, cur := s.cur.(meta := SetMeta(s.cur.meta, t, ValueToEol(buf, next, |buf|))))
                       else s.(p := next), false)
  {
  }

  /**
   * Documents are committed only at a recognised `</DOCUMENT>` after a
   * `<DOCUMENT>`: an iteration either leaves the table alone or appends the
   * document being built, exactly as it is.
   */
  lemma ActCommitsOnlyAtClose(buf: seq<byte>, v: Variant, alloc: Allocator, s: Scan, lt: nat)
    requires Good(buf, s) && s.p <= lt && lt + 2 <= |buf| && buf[lt] == LT
    ensures var o := Act(buf, v, alloc, s, lt);
            || o.s.docs == s.docs
            || (Recognised(buf, lt, v, DocClose) && s.state != Between && o.s.docs == s.docs + [s.cur])
  {
    TagAtSound(buf, lt, v);
    var tag := TagAt(buf, lt, v);
    if tag.Some? {
      ActTagDocs(buf, v, alloc, s, lt, tag.value);
    }
  }

  /**
   * Only `</TEXT>` in InText processes the content: no other iteration
   * inside a document changes its length, its uuencoded flag or its payload.
   * In particular a document closed in InText is committed as it stood.
   */
  lemma ActContentOnlyAtTextClose(buf: seq<byte>, v: Variant, alloc: Allocator, s: Scan, lt: nat)
    requires Good(buf, s) && s.p <= lt && lt + 2 <= |buf|
    requires !(TagAt(buf, lt, v) == Some(TextClose) && s.state == InText)
    requires s.state != Between && Act(buf, v, alloc, s, lt).s.state != Between
    requires !v.Corrected?
    ensures var c := Act(buf, v, alloc, s, lt).s.cur;
            c.contentLen == s.cur.contentLen && c.isUuencoded == s.cur.isUuencoded && c.payload == s.cur.payload
  {
    var tag := TagAt(buf, lt, v);
    if tag.Some? {
      ActTagContent(buf, v, alloc, s, lt, tag.value);
    }
  }

  lemma ActTagContent(buf: seq<byte>, v: Variant, alloc: Allocator, s: Scan, lt: nat, t: Tag)
    requires Good(buf, s) && s.p <= lt && lt + TagLen(t) <= |buf|
    requires !(t == TextClose && s.state == InText)
    requires s.state != Between && ActTag(buf, v, alloc, s, lt, t).s.state != Between
    requires !v.Corrected?
    ensures var c := ActTag(buf, v, alloc, s, lt, t).s.cur;
            c.contentLen == s.cur.contentLen && c.isUuencoded == s.cur.isUuencoded && c.payload == s.cur.payload
  {
  }

  /**
   * When src/secsgml.c cannot grow the table at `</DOCUMENT>`, it stops with
   * an out-of-memory status and keeps the documents committed so far; the
   * older copy drops the document and scans on.
   */
  lemma PushFailure(buf: seq<byte>, v: Variant, alloc: Allocator, s: Scan, lt: nat)
    requires Good(buf, s) && s.p <= lt && lt + 2 <= |buf|
    requires TagAt(buf, lt, v) == Some(DocClose) && s.state != Between
    requires DocsPushCap(|s.docs|, s.cap, lt + TagLen(DocClose), alloc).None?
    ensures var o := Act(buf, v, alloc, s, lt);
            && o.s.docs == s.docs
            && (!v.Legacy? ==> o.halt && o.s.status == OutOfMemory)
            && (v.Legacy? ==> !o.halt && o.s.state == Between && o.s.cur == EmptyDocument && o.s.status == s.status)
  {
  }

  /** One iteration never removes or rewrites a committed document. */
  lemma ActKeepsCommitted(buf: seq<byte>, v: Variant, alloc: Allocator, s: Scan, lt: nat)
    requires Good(buf, s) && s.p <= lt && lt + 2 <= |buf|
    ensures IsPrefix(s.docs, Act(buf, v, alloc, s, lt).s.docs)
  {
    var tag := TagAt(buf, lt, v);
    if tag.Some? {
      ActTagDocs(buf, v, alloc, s, lt, tag.value);
    }
  }

  /** At a recognised tag the table is unchanged, or the document is appended at `</DOCUMENT>`. */
  lemma ActTagDocs(buf: seq<byte>, v: Variant, alloc: Allocator, s: Scan, lt: nat, t: Tag)
    requires Good(buf, s) && s.p <= lt && lt + TagLen(t) <= |buf|
    ensures var d := ActTag(buf, v, alloc, s, lt, t).s.docs;
            d == s.docs || (t == DocClose && s.state != Between && d == s.docs + [s.cur])
  {
  }

  /** The older scanner's iteration at a recognised tag keeps the status. */
  lemma ActTagLegacyStatus(buf: seq<byte>, alloc: Allocator, s: Scan, lt: nat, t: Tag)
    requires Good(buf, s) && s.p <= lt && lt + TagLen(t) <= |buf|
    ensures ActTag(buf, Legacy, alloc, s, lt, t).s.status == s.status
  {
  }

  lemma PrefixTrans<T>(xs: seq<T>, ys: seq<T>, zs: seq<T>)
    requires IsPrefix(xs, ys) && IsPrefix(ys, zs)
    ensures IsPrefix(xs, zs)
  {
    assert zs[..|xs|] == zs[..|ys|][..|xs|];
  }

  /** The loop only ever appends to the table. */
  lemma {:induction false} RunKeepsCommitted(buf: seq<byte>, v: Variant, alloc: Allocator, s: Scan)
    requires Good(buf, s)
    ensures IsPrefix(s.docs, RunFrom(buf, v, alloc, s).docs)
    decreases |buf| - s.p
  {
    if s.p < |buf| {
      var found := FindByte(buf, s.p, |buf|, LT);
      if found.Some? && |buf| - found.value >= 2 {
        var o := Act(buf, v, alloc, s, found.value);
        ActKeepsCommitted(buf, v, alloc, s, found.value);
        if !o.halt {
          RunKeepsCommitted(buf, v, alloc, o.s);
          PrefixTrans(s.docs, o.s.docs, RunFrom(buf, v, alloc, o.s).docs);
        }
      }
    }
  }

  /**
   * Without a recognised `</DOCUMENT>` ahead of the cursor nothing more is
   * committed: a document that is never closed is never added.
   */
  lemma {:induction false} RunWithoutCloseCommitsNothing(buf: seq<byte>, v: Variant, alloc: Allocator, s: Scan)
    requires Good(buf, s)
    requires forall k :: s.p <= k < |buf| ==> !Recognised(buf, k, v, DocClose)
    ensures RunFrom(buf, v, alloc, s).docs == s.docs
    decreases |buf| - s.p
  {
    if s.p < |buf| {
      var found := FindByte(buf, s.p, |buf|, LT);
      if found.Some? && |buf| - found.value >= 2 {
        var lt := found.value;
        var o := Act(buf, v, alloc, s, lt);
        ActCommitsOnlyAtClose(buf, v, alloc, s, lt);
        if !o.halt {
          RunWithoutCloseCommitsNothing(buf, v, alloc, o.s);
        }
      }
    }
  }

  /** The older scanner never reports anything but OK. */
  lemma {:induction false} LegacyStatusOk(buf: seq<byte>, alloc: Allocator, s: Scan)
    requires Good(buf, s) && s.status == Ok
    ensures RunFrom(buf, Legacy, alloc, s).status == Ok
    decreases |buf| - s.p
  {
    if s.p < |buf| {
      var found := FindByte(buf, s.p, |buf|, LT);
      if found.Some? && |buf| - found.value >= 2 {
        var o := Act(buf, Legacy, alloc, s, found.value);
        var tag := TagAt(buf, found.value, Legacy);
        if tag.Some? {
          ActTagLegacyStatus(buf, alloc, s, found.value, tag.value);
        }
        LegacyStatusOk(buf, alloc, o.s);
      }
    }
  }

  /**
   * A uuencoded text block in src/secsgml.c: when its buffer is allocated,
   * the payload is the capped decoder's output at exactly the pre-computed
   * size, and the status becomes Truncated only when the size was capped.
   * When the allocation fails there is no payload and the status is
   * out-of-memory.
   */
  lemma UuBlockStatus(enc: seq<byte>, at: nat, alloc: Allocator, cur: Document, status: Status)
    ensures var d := UuDecodedSize(enc);
            var (c, st) := CloseUuCurrent(enc, at, alloc, cur, status);
            if alloc(DecodedBuffer(if d.size == 0 then 1 else d.size, at)) then
              && c.payload == Decoded(UUCodec.Decode(enc, d.size))
              && |c.payload.bytes| == Min(UUCodec.LineCountSum(enc, 0), UuDecodeMax)
              && st == (if d.capped then Truncated else status)
            else c.payload == NoPayload && st == OutOfMemory
  {
    UuDecodedSizeFills(enc);
  }

  // ---------------------------------------------------------------------------
  // Three defects of the C code, and the behaviour they evidently intend
  // ---------------------------------------------------------------------------

  /** Every tag's text starts with '<'. */
  lemma TagTextHead(buf: seq<byte>, k: nat, t: Tag)
    requires OccursAt(buf, k, TagText(t))
    ensures buf[k] == LT
  {
    assert buf[k] == buf[k..k + TagLen(t)][0];
  }

  /**
   * The older secsgml.c asks for `remain > 11` before `</DOCUMENT>`, so a
   * closing tag that ends exactly at the end of the buffer is not seen and
   * the open document is never committed.
   */
  lemma LegacyDropsFinalClose(buf: seq<byte>, alloc: Allocator, s: Scan)
    requires Good(buf, s) && s.state != Between && s.p + 11 <= |buf|
    requires buf[|buf| - 11..] == TagText(DocClose)
    requires forall k :: s.p <= k < |buf| - 11 ==> buf[k] != LT
    ensures RunFrom(buf, Legacy, alloc, s).docs == s.docs
  {
    var lt := |buf| - 11;
    forall k | s.p <= k < |buf|
      ensures !Recognised(buf, k, Legacy, DocClose)
    {
      if OccursAt(buf, k, TagText(DocClose)) {
        TagTextHead(buf, k, DocClose);
      }
    }
    RunWithoutCloseCommitsNothing(buf, Legacy, alloc, s);
  }

  /**
   * src/secsgml.c asks only for `remain >= 11`: the same buffer commits the
   * open document, as it is, when the table has room for it.
   */
  lemma FinalCloseCommits(buf: seq<byte>, v: Variant, alloc: Allocator, s: Scan)
    requires !v.Legacy?
    requires Good(buf, s) && s.state != Between && s.p + 11 <= |buf|
    requires buf[|buf| - 11..] == TagText(DocClose)
    requires forall k :: s.p <= k < |buf| - 11 ==> buf[k] != LT
    requires DocsPushCap(|s.docs|, s.cap, |buf|, alloc).Some?
    ensures RunFrom(buf, v, alloc, s).docs == s.docs + [s.cur]
  {
    var lt := |buf| - 11;
    assert buf[lt] == TagText(DocClose)[0] == LT;
    var found := FindByte(buf, s.p, |buf|, LT);
    FindByteFirst(buf, s.p, |buf|, LT);
    assert found == Some(lt);
    assert buf[lt..lt + 11] == TagText(DocClose);
    TagAtComplete(buf, lt, v, DocClose);
    var o := Act(buf, v, alloc, s, lt);
    assert o == CloseDocument(v, alloc, s, |buf|);
  }

  /**
   * The older secsgml.c decodes into a buffer as long as the encoded text,
   * whatever the line lengths announce: the single line "M" (45 bytes
   * announced, none present) overruns a buffer of 2.
   */
  lemma LegacyDecodeOverruns(at: nat, alloc: Allocator, cur: Document, status: Status)
    requires alloc(DecodedBuffer(2, at))
    ensures CloseUuLegacy([77, LF], at, alloc, cur, status).0.payload == Overrun(45, 2)
  {
    var enc: seq<byte> := [77, LF];
    var h := LegacyUUCodec.LegacyHeadAt(enc, 0);
    assert FindByte(enc, 1, 2, LF) == Some(1);
    assert h.count == 45 && h.next == 2;
    assert LegacyUUCodec.LegacyCountSum(enc, 0) == 45;
  }

  /**
   * In both copies of the C code `<TEXT>` sets `content_start` but keeps the
   * `content_len` of an earlier text block of the same document. After a
   * second `<TEXT>` the content span can run past the end of the buffer,
   * as in `<DOCUMENT><TEXT>0123456789ABCDEFGHIJ</TEXT><TEXT></DOCUMENT>`,
   * where the committed span is 49 + 20 in a buffer of 60 bytes.
   */
  lemma StaleTextLength(buf: seq<byte>, v: Variant, alloc: Allocator, s: Scan, lt: nat)
    requires !v.Corrected?
    requires Good(buf, s) && s.state == InDocMeta && s.p <= lt && lt + 6 <= |buf|
    requires lt + 6 + s.cur.contentLen > |buf|
    ensures var c := ActTag(buf, v, alloc, s, lt, TextOpen).s.cur;
            c.contentStart + c.contentLen > |buf|
  {
  }

  /** The content span of a document lies inside the buffer. */
  predicate SpanInside(buf: seq<byte>, d: Document)
  {
    d.contentStart + d.contentLen <= |buf|
  }

  /** The document being built and every committed one have their content inside the buffer. */
  predicate AllInside(buf: seq<byte>, s: Scan)
  {
    SpanInside(buf, s.cur) && forall d :: d in s.docs ==> SpanInside(buf, d)
  }

  /** A closed text block's content lies between its start and the `</TEXT>`. */
  lemma CloseTextInside(buf: seq<byte>, v: Variant, alloc: Allocator, cur: Document, lt: nat, status: Status)
    requires cur.contentStart <= lt <= |buf|
    ensures var c := CloseText(buf, v, alloc, cur, lt, status).0;
            cur.contentStart <= c.contentStart && c.contentStart + c.contentLen <= lt
  {
  }

  /** With the length reset at `<TEXT>`, one iteration keeps every content span inside the buffer. */
  lemma ActTagCorrectedInside(buf: seq<byte>, alloc: Allocator, s: Scan, lt: nat, t: Tag)
    requires Good(buf, s) && s.p <= lt && lt + TagLen(t) <= |buf| && AllInside(buf, s)
    ensures AllInside(buf, ActTag(buf, Corrected, alloc, s, lt, t).s)
  {
    if t == TextClose && s.state == InText {
      CloseTextInside(buf, Corrected, alloc, s.cur, lt, s.status);
    }
  }

  lemma {:induction false} RunCorrectedInside(buf: seq<byte>, alloc: Allocator, s: Scan)
    requires Good(buf, s) && AllInside(buf, s)
    ensures AllInside(buf, RunFrom(buf, Corrected, alloc, s))
    decreases |buf| - s.p
  {
    if s.p < |buf| {
      var found := FindByte(buf, s.p, |buf|, LT);
      if found.Some? && |buf| - found.value >= 2 {
        var o := Act(buf, Corrected, alloc, s, found.value);
        var tag := TagAt(buf, found.value, Corrected);
        if tag.Some? {
          ActTagCorrectedInside(buf, alloc, s, found.value, tag.value);
        }
        if !o.halt {
          RunCorrectedInside(buf, alloc, o.s);
        }
      }
    }
  }

  /**
   * With `content_len` reset at every `<TEXT>`, every committed document's
   * content span lies inside the buffer, whatever the buffer holds.
   */
  lemma CorrectedSpansInside(buf: seq<byte>, alloc: Allocator)
    ensures forall d :: d in Parse(buf, Corrected, alloc).docs ==> SpanInside(buf, d)
  {
    if alloc(DocsInitial) {
      RunCorrectedInside(buf, alloc, Start(alloc));
    }
  }
}
