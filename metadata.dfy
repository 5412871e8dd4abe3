/*
 * The submission-header parser `parse_submission_metadata` of src/secsgml.c
 * and of the older secsgml.c: it reads the text before the first
 * `<DOCUMENT>` and turns it into a flat stream of depth-tagged events, in one
 * of two line-oriented dialects (archive `<KEY>VALUE` lines, or tab-indented
 * `key: value` lines).
 *
 * The events a header stands for are specified by the functions
 * `ArchiveFrom`, `TabFrom` and `SubmissionEvents`, independently of memory;
 * `AddAll` says which of them reach the `add_event` table when allocation
 * fails. The methods walk the lines as the C loops do and are proved to
 * produce exactly that table.
 */
module Metadata {
  import opened Base
  import opened Lines
  import Scanner

  /** src/secsgml.c (`Current`, `Corrected`) or the older secsgml.c (`Legacy`). */
  type Variant = Scanner.Variant

  datatype EventKind = SectionStart | SectionEnd | KeyValue

  /**
   * An event's key: a span of the buffer, or the static string
   * "PRIVACY-ENHANCED-MESSAGE" of the privacy event. The C code's
   * `(byte_span){0}` is `Slice(EmptySpan)`.
   */
  datatype Key = Slice(span: Span) | PrivacyKey

  /** `submission_event`; `depth` is a C `int`. */
  datatype Event = Event(kind: EventKind, key: Key, value: Span, depth: int)

  const NoKey := Slice(EmptySpan)

  const PrivacyKeyText := Lit("PRIVACY-ENHANCED-MESSAGE")

  // ---------------------------------------------------------------------------
  // The event table
  // ---------------------------------------------------------------------------

  /** `EVENTS_INITIAL_CAP`. */
  const EventsInitialCap: nat := 128

  /**
   * The capacity after `add_event` makes room for one more event in a table
   * of `count` events and capacity `cap`, or None when `realloc` fails;
   * `call` earlier calls of `add_event` were made on the table.
   */
  function EventsPushCap(count: nat, cap: nat, call: nat, alloc: Allocator): (r: Option<nat>)
    ensures count <= cap && r.Some? ==> count < r.value
    ensures count < cap ==> r == Some(cap)
    ensures r.None? ==> count == cap
  {
    if count == cap then
      var newCap := if cap == 0 then EventsInitialCap else 2 * cap;
      if alloc(EventsTable(newCap, call)) then Some(newCap) else None
    else Some(cap)
  }

  /**
   * The table's events and capacity, how many times `add_event` was called
   * on it, and whether every push so far succeeded.
   */
  datatype Table = Table(events: seq<Event>, cap: nat, calls: nat, ok: bool)

  const EmptyTable := Table([], 0, 0, true)

  /** `add_event`: append `e`, or record that the table could not grow. */
  function Add(t: Table, e: Event, alloc: Allocator): Table
  {
    match EventsPushCap(|t.events|, t.cap, t.calls, alloc)
    case Some(c) => Table(t.events + [e], c, t.calls + 1, t.ok)
    case None => t.(calls := t.calls + 1, ok := false)
  }

  /**
   * Pushing a stream of events: src/secsgml.c stops at the first failed
   * push; the older copy ignores the result and pushes on.
   */
  function AddAll(t: Table, es: seq<Event>, v: Variant, alloc: Allocator): Table
    decreases |es|
  {
    if es == [] || (!t.ok && !v.Legacy?) then t
    else AddAll(Add(t, es[0], alloc), es[1..], v, alloc)
  }

  /** Pushing two streams one after the other is pushing their concatenation. */
  lemma {:induction false} AddAllAppend(t: Table, a: seq<Event>, b: seq<Event>, v: Variant, alloc: Allocator)
    ensures AddAll(t, a + b, v, alloc) == AddAll(AddAll(t, a, v, alloc), b, v, alloc)
    decreases |a|
  {
    if a == [] {
      assert a + b == b;
    } else if t.ok || v.Legacy? {
      assert (a + b)[1..] == a[1..] + b;
      AddAllAppend(Add(t, a[0], alloc), a[1..], b, v, alloc);
    }
  }

  /** The elements of `xs` whose flag in `keep` is set, in order. */
  function Kept<T>(xs: seq<T>, keep: seq<bool>): (r: seq<T>)
    requires |keep| == |xs|
    ensures |r| <= |xs|
    ensures forall x :: x in r ==> x in xs
  {
    if xs == [] then []
    else (if keep[0] then [xs[0]] else []) + Kept(xs[1..], keep[1..])
  }

  /**
   * src/secsgml.c stops at the first failed push, so the table keeps the
   * first `n` events of the stream, in order, after the ones it had; all of
   * them exactly when no push failed.
   */
  lemma {:induction false} AddAllKeepsPrefix(t: Table, es: seq<Event>, v: Variant, alloc: Allocator) returns (n: nat)
    requires !v.Legacy?
    ensures var r := AddAll(t, es, v, alloc);
            && n <= |es| && r.events == t.events + es[..n]
            && (t.ok ==> (r.ok <==> n == |es|))
            && (!t.ok ==> r == t)
    decreases |es|
  {
    if es == [] || !t.ok {
      return 0;
    }
    var t1 := Add(t, es[0], alloc);
    if t1.ok {
      var n1 := AddAllKeepsPrefix(t1, es[1..], v, alloc);
      n := n1 + 1;
      assert es[..n] == [es[0]] + es[1..][..n1];
    } else {
      assert t1.events == t.events;
      n := 0;
    }
  }

  /**
   * The older copy ignores failed pushes and pushes on, so the table keeps
   * some of the events of the stream, in order: the ones flagged in `keep`.
   * It keeps all of them exactly when no push failed.
   */
  lemma {:induction false} AddAllKeepsSome(t: Table, es: seq<Event>, alloc: Allocator) returns (keep: seq<bool>)
    ensures var r := AddAll(t, es, Scanner.Legacy, alloc);
            && |keep| == |es| && r.events == t.events + Kept(es, keep)
            && (t.ok ==> (r.ok <==> forall i :: 0 <= i < |keep| ==> keep[i]))
            && (!t.ok ==> !r.ok)
    decreases |es|
  {
    if es == [] {
      return [];
    }
    var t1 := Add(t, es[0], alloc);
    var k1 := AddAllKeepsSome(t1, es[1..], alloc);
    keep := [|t1.events| > |t.events|] + k1;
    assert keep[1..] == k1;
    if t1.events == t.events + [es[0]] {
      assert keep[0];
      assert t.events + Kept(es, keep) == t1.events + Kept(es[1..], k1);
    } else {
      assert t1.events == t.events && !t1.ok && !keep[0];
    }
  }

  /**
   * The older copy can keep the close of a section whose start it dropped:
   * when the table's first `realloc` fails and the next one succeeds, only
   * the close is pushed. src/secsgml.c stops at the failure and keeps neither.
   */
  lemma LegacyOrphansClose(key: Key, d: nat)
    ensures var open := Event(SectionStart, key, EmptySpan, d);
            var close := Event(SectionEnd, key, EmptySpan, d);
            var alloc := (r: AllocRequest) => r != EventsTable(EventsInitialCap, 0);
            && AddAll(EmptyTable, [open, close], Scanner.Legacy, alloc).events == [close]
            && AddAll(EmptyTable, [open, close], Scanner.Current, alloc).events == []
  {
    var open := Event(SectionStart, key, EmptySpan, d);
    var close := Event(SectionEnd, key, EmptySpan, d);
    var alloc := (r: AllocRequest) => r != EventsTable(EventsInitialCap, 0);
    var t1 := Add(EmptyTable, open, alloc);
    assert t1 == Table([], 0, 1, false);
    assert [open, close][1..] == [close] && [close][1..] == [];
    var t2 := Add(t1, close, alloc);
    assert t2 == Table([close], EventsInitialCap, 2, false);
    assert AddAll(t1, [close], Scanner.Legacy, alloc) == AddAll(t2, [], Scanner.Legacy, alloc) == t2;
    assert AddAll(EmptyTable, [open, close], Scanner.Legacy, alloc) == AddAll(t1, [close], Scanner.Legacy, alloc);
    assert AddAll(EmptyTable, [open, close], Scanner.Current, alloc) == AddAll(t1, [close], Scanner.Current, alloc) == t1;
  }

  // ---------------------------------------------------------------------------
  // Nesting
  // ---------------------------------------------------------------------------

  /** The depth after closing a section at depth `d`: the C code never goes below 0. */
  function Dec(d: nat): nat
  {
    if d > 0 then d - 1 else 0
  }

  /**
   * Walk a stream from depth `d`: each event must carry the depth the parser
   * is at (a SectionEnd the depth after closing); returns the final depth,
   * or None when some event's depth is wrong.
   */
  function Walk(es: seq<Event>, d: nat): Option<nat>
    decreases |es|
  {
    if es == [] then Some(d)
    else
      var e := es[0];
      match e.kind
      case SectionStart => if e.depth == d then Walk(es[1..], d + 1) else None
      case SectionEnd => if e.depth == Dec(d) then Walk(es[1..], Dec(d)) else None
      case KeyValue => if e.depth == d then Walk(es[1..], d) else None
  }

  lemma {:induction false} WalkAppend(a: seq<Event>, b: seq<Event>, d: nat)
    ensures Walk(a + b, d) == match Walk(a, d) case Some(d1) => Walk(b, d1) case None => None
    decreases |a|
  {
    if a == [] {
      assert a + b == b;
    } else {
      assert (a + b)[0] == a[0] && (a + b)[1..] == a[1..] + b;
      var e := a[0];
      match e.kind
      case SectionStart => WalkAppend(a[1..], b, d + 1);
      case SectionEnd => WalkAppend(a[1..], b, Dec(d));
      case KeyValue => WalkAppend(a[1..], b, d);
    }
  }

  /** A value event at the current depth leaves the walk where it was. */
  lemma WalkKeyValue(e: Event, rest: seq<Event>, d: nat)
    requires e.kind == KeyValue && e.depth == d
    ensures Walk([e] + rest, d) == Walk(rest, d)
  {
    assert ([e] + rest)[0] == e && ([e] + rest)[1..] == rest;
  }

  // ---------------------------------------------------------------------------
  // Lines of both dialects
  // ---------------------------------------------------------------------------

  /** The events of one line and the depth after it. */
  datatype LineOut = LineOut(events: seq<Event>, depth: nat)

  /**
   * SectionEnds with empty keys at depths `d - 1` down to `floor`: closing the
   * sections deeper than `floor`.
   */
  function Dedent(d: nat, floor: nat): seq<Event>
    decreases d
  {
    if d > floor then [Event(SectionEnd, NoKey, EmptySpan, d - 1)] + Dedent(d - 1, floor) else []
  }

  /** The synthetic closes at the end of input: every open section, innermost first. */
  function Closes(d: nat): seq<Event>
  {
    Dedent(d, 0)
  }

  /** Closing down to `floor` walks from `d` to the smaller of the two. */
  lemma {:induction false} DedentWalks(d: nat, floor: nat)
    ensures Walk(Dedent(d, floor), d) == Some(if d > floor then floor else d)
    decreases d
  {
    if d > floor {
      DedentWalks(d - 1, floor);
    }
  }

  /**
   * The tag branch both dialects share: `</KEY>` closes a section at the
   * depth after closing, `<KEY>` with an empty value opens one at the
   * current depth, and anything else is a key-value pair.
   */
  function TagEvent(buf: seq<byte>, key: Span, value: Span, d: nat): (r: LineOut)
    requires key.End() <= |buf|
    ensures Walk(r.events, d) == Some(r.depth)
  {
    if key.len > 0 && buf[key.start] == SLASH then LineOut([Event(SectionEnd, Slice(key), EmptySpan, Dec(d))], Dec(d))
    else if value.len == 0 then LineOut([Event(SectionStart, Slice(key), EmptySpan, d)], d + 1)
    else LineOut([Event(KeyValue, Slice(key), value, d)], d)
  }

  /** The key and value of `<KEY>VALUE`, with the '<' at `lt`, the first '>' at `gt` and the line ending at `e`. */
  function TagKey(buf: seq<byte>, lt: nat, gt: nat): (k: Span)
    requires lt < gt <= |buf|
    ensures lt < k.start && k.End() <= gt
  {
    TrimSpan(buf, Span(lt + 1, gt - lt - 1))
  }

  function TagValue(buf: seq<byte>, gt: nat, e: nat): (v: Span)
    requires gt < e <= |buf|
    ensures gt < v.start && v.End() <= e
  {
    TrimSpan(buf, Span(gt + 1, e - gt - 1))
  }

  const SubmissionKey := Lit("SUBMISSION")

  /** The line starting at `p` without its leading whitespace. */
  function LineBody(buf: seq<byte>, p: nat, end: nat): (line: Span)
    requires p <= end <= |buf|
    ensures p <= line.start && line.End() == FindEol(buf, p, end)
  {
    LTrimSpan(buf, Span(p, FindEol(buf, p, end) - p))
  }

  /**
   * One line of the archive dialect once its leading whitespace is gone: a
   * `<KEY>VALUE` tag line; any other line emits nothing. src/secsgml.c skips
   * a `<SUBMISSION>` line; the older copy treats it like any other tag.
   */
  function TagLine(buf: seq<byte>, line: Span, d: nat, v: Variant): (r: LineOut)
    requires line.End() <= |buf|
    ensures Walk(r.events, d) == Some(r.depth)
  {
    if line.len > 0 && buf[line.start] == LT then
      match FindByte(buf, line.start, line.End(), GT)
      case None => LineOut([], d)
      case Some(gt) =>
        var key := TagKey(buf, line.start, gt);
        if !v.Legacy? && buf[key.start..key.End()] == SubmissionKey then LineOut([], d)
        else TagEvent(buf, key, TagValue(buf, gt, line.End()), d)
    else LineOut([], d)
  }

  /** `parse_archive_metadata` from the line at `p`, at depth `d`, with no table limit. */
  function ArchiveFrom(buf: seq<byte>, p: nat, end: nat, d: nat, v: Variant): seq<Event>
    requires p <= end <= |buf|
    decreases end - p
  {
    if p == end then Closes(d)
    else
      var out := TagLine(buf, LineBody(buf, p, end), d, v);
      out.events + ArchiveFrom(buf, NextLine(buf, p, end), end, out.depth, v)
  }

  /** The number of tabs that start the line [p, eol). */
  function Indent(buf: seq<byte>, p: nat, eol: nat): (n: nat)
    requires p <= eol <= |buf|
    ensures p + n <= eol
    ensures p + n < eol ==> buf[p + n] != TAB
    decreases eol - p
  {
    if p < eol && buf[p] == TAB then 1 + Indent(buf, p + 1, eol) else 0
  }

  /** The indent is made of tabs only. */
  lemma {:induction false} IndentIsTabs(buf: seq<byte>, p: nat, eol: nat)
    requires p <= eol <= |buf|
    ensures forall k :: p <= k < p + Indent(buf, p, eol) ==> buf[k] == TAB
    decreases eol - p
  {
    if p < eol && buf[p] == TAB {
      IndentIsTabs(buf, p + 1, eol);
    }
  }

  /**
   * The content of a tab-dialect line: split at its first ':' into a key and
   * a value, or else read as a tag line.
   */
  function TabContent(buf: seq<byte>, content: Span, d: nat): (r: LineOut)
    requires content.End() <= |buf| && content.len > 0
    ensures Walk(r.events, d) == Some(r.depth)
  {
    match FindByte(buf, content.start, content.End(), COLON)
    case Some(colon) => ColonEvent(buf, content, colon, d)
    case None =>
      if buf[content.start] == LT then
        match FindByte(buf, content.start, content.End(), GT)
        case Some(gt) => TagEvent(buf, TagKey(buf, content.start, gt), TagValue(buf, gt, content.End()), d)
        case None => LineOut([], d)
      else LineOut([], d)
  }

  /** `key: value` split at the ':' at `colon`: a section when the value is empty. */
  function ColonEvent(buf: seq<byte>, content: Span, colon: nat, d: nat): (r: LineOut)
    requires content.start <= colon < content.End() <= |buf|
    ensures Walk(r.events, d) == Some(r.depth)
  {
    var key := TrimSpan(buf, Span(content.start, colon - content.start));
    var value := TrimSpan(buf, Span(colon + 1, content.End() - colon - 1));
    if value.len == 0 then LineOut([Event(SectionStart, Slice(key), EmptySpan, d)], d + 1)
    else LineOut([Event(KeyValue, Slice(key), value, d)], d)
  }

  /**
   * One line of the tab dialect: blank lines are skipped; otherwise the
   * sections deeper than the line's tab indent are closed first.
   */
  function TabLine(buf: seq<byte>, p: nat, end: nat, d: nat): LineOut
    requires p <= end <= |buf|
  {
    var eol := FindEol(buf, p, end);
    if eol == p then LineOut([], d) else IndentedLine(buf, p, eol, d)
  }

  /** The non-blank line [p, eol) with its indent measured. */
  function IndentedLine(buf: seq<byte>, p: nat, eol: nat, d: nat): LineOut
    requires p < eol <= |buf|
  {
    ContentLine(buf, LineContent(buf, p, eol), Indent(buf, p, eol), d)
  }

  /** The non-empty line [p, eol) without its indent and trimmed. */
  function LineContent(buf: seq<byte>, p: nat, eol: nat): (c: Span)
    requires p < eol <= |buf|
    ensures p + Indent(buf, p, eol) <= c.start && c.End() <= eol
  {
    TrimSpan(buf, Span(p + Indent(buf, p, eol), eol - p - Indent(buf, p, eol)))
  }

  /** A tab-dialect line with indent `ind` and trimmed content `content`. */
  function ContentLine(buf: seq<byte>, content: Span, ind: nat, d: nat): LineOut
    requires content.End() <= |buf|
  {
    if content.len == 0 then LineOut([], d)
    else
      var out := TabContent(buf, content, if d > ind then ind else d);
      LineOut(Dedent(d, ind) + out.events, out.depth)
  }

  /** `parse_tab_metadata` from the line at `p`, at depth `d`, with no table limit. */
  function TabFrom(buf: seq<byte>, p: nat, end: nat, d: nat): seq<Event>
    requires p <= end <= |buf|
    decreases end - p
  {
    if p == end then Closes(d)
    else
      var out := TabLine(buf, p, end, d);
      out.events + TabFrom(buf, NextLine(buf, p, end), end, out.depth)
  }

  /**
   * A `<SUBMISSION>` line of the archive dialect: src/secsgml.c emits nothing
   * for it and stays at its depth; the older copy reads it like any other
   * tag, so with an empty value it opens a section one level deeper.
   */
  lemma SubmissionLine(buf: seq<byte>, line: Span, d: nat, gt: nat)
    requires line.End() <= |buf| && line.len > 0 && buf[line.start] == LT
    requires FindByte(buf, line.start, line.End(), GT) == Some(gt)
    requires var key := TagKey(buf, line.start, gt); buf[key.start..key.End()] == SubmissionKey
    ensures TagLine(buf, line, d, Scanner.Current) == LineOut([], d)
    ensures var key := TagKey(buf, line.start, gt);
            var value := TagValue(buf, gt, line.End());
            TagLine(buf, line, d, Scanner.Legacy)
            == if value.len == 0 then LineOut([Event(SectionStart, Slice(key), EmptySpan, d)], d + 1)
               else LineOut([Event(KeyValue, Slice(key), value, d)], d)
  {
    var key := TagKey(buf, line.start, gt);
    assert buf[key.start] == buf[key.start..key.End()][0] == 'S' as int;
  }

  /**
   * In the tab dialect a line is split at its first ':' even when it starts
   * with '<': the key runs from the '<' to the colon, and no section is
   * closed by it.
   */
  lemma ColonBeforeTag(buf: seq<byte>, content: Span, d: nat, colon: nat)
    requires content.End() <= |buf| && content.len > 0 && buf[content.start] == LT
    requires FindByte(buf, content.start, content.End(), COLON) == Some(colon)
    ensures var r := TabContent(buf, content, d);
            && |r.events| == 1 && r.events[0].kind != SectionEnd && r.events[0].depth == d
            && r.events[0].key == Slice(TrimSpan(buf, Span(content.start, colon - content.start)))
            && r.events[0].key.span.start == content.start && r.events[0].key.span.End() <= colon
  {
    var s := Span(content.start, colon - content.start);
    assert s.len > 0 && !IsSpace(buf[s.start]);
    assert LTrimSpan(buf, s) == s;
  }

  // ---------------------------------------------------------------------------
  // The header
  // ---------------------------------------------------------------------------

  const DocOpenText := Lit("<DOCUMENT>")
  const SectionPrefix := Lit("<SE")

  /** The length of the header: the offset of the first `<DOCUMENT>`, or the whole buffer. */
  function HeaderLen(buf: seq<byte>): (n: nat)
    ensures n <= |buf|
  {
    match FindSubspan(buf, 0, DocOpenText)
    case Some(k) => k
    case None => |buf|
  }

  /** The privacy event: the header up to and including its first blank line. */
  function PrivacyEvent(sub: Span, privacyEnd: nat): Event
  {
    Event(KeyValue, PrivacyKey, Span(sub.start, privacyEnd), 0)
  }

  /** The header with its leading whitespace removed. */
  function Header(buf: seq<byte>): (sub: Span)
    ensures sub.End() == HeaderLen(buf)
  {
    LTrimSpan(buf, Span(0, HeaderLen(buf)))
  }

  /**
   * The events `parse_submission_metadata` stands for, with no table limit:
   * a header that starts with '-' is a privacy-enhanced message in the tab
   * dialect; one that starts with `<SE` is in the tab dialect; anything else
   * is in the archive dialect.
   */
  function SubmissionEvents(buf: seq<byte>, v: Variant): seq<Event>
  {
    HeaderEvents(buf, Header(buf), v)
  }

  /** The events of the header `sub`, by its dialect. */
  function HeaderEvents(buf: seq<byte>, sub: Span, v: Variant): seq<Event>
    requires sub.End() <= |buf|
  {
    if sub.len == 0 then []
    else if buf[sub.start] == DASH then PrivacyEvents(buf, sub, FindDoubleNewline(buf, sub, 0))
    else if sub.len >= 3 && buf[sub.start..sub.start + 3] == SectionPrefix then TabFrom(buf, sub.start, sub.End(), 0)
    else ArchiveFrom(buf, sub.start, sub.End(), 0, v)
  }

  /**
   * A privacy-enhanced header: its first paragraph, up to and including the
   * first blank line, becomes one event when a blank line lies strictly
   * inside the header; the tab dialect then reads the rest of the header with
   * its leading whitespace removed, or the whole header when there is no event.
   */
  function PrivacyEvents(buf: seq<byte>, sub: Span, pe: nat): seq<Event>
    requires sub.End() <= |buf| && pe <= sub.len
  {
    var t := TabSpan(buf, sub, pe);
    PrivacyHead(sub, pe) + TabFrom(buf, t.start, t.End(), 0)
  }

  /** The privacy event, when the first blank line lies strictly inside the header. */
  function PrivacyHead(sub: Span, pe: nat): (es: seq<Event>)
    ensures |es| <= 1
  {
    if 0 < pe < sub.len then [PrivacyEvent(sub, pe)] else []
  }

  /** The span the tab dialect reads once the privacy event, if any, is taken. */
  function TabSpan(buf: seq<byte>, sub: Span, pe: nat): (t: Span)
    requires sub.End() <= |buf| && pe <= sub.len
    ensures sub.start <= t.start && t.End() == sub.End()
  {
    if 0 < pe < sub.len then LTrimSpan(buf, Span(sub.start + pe, sub.len - pe)) else sub
  }

  /** `parse_submission_metadata`: the table, and the status src/secsgml.c reports. */
  function Metadata(buf: seq<byte>, v: Variant, alloc: Allocator): (Table, Status)
  {
    var t := AddAll(EmptyTable, SubmissionEvents(buf, v), v, alloc);
    (t, if t.ok || v.Legacy? then Ok else OutOfMemory)
  }

  // ---------------------------------------------------------------------------
  // Properties of the event stream
  // ---------------------------------------------------------------------------

  /**
   * The closes before a line of indent `floor`, or at the end of input: one
   * SectionEnd with an empty key and value per open level, at depths `d - 1`
   * down to `floor`.
   */
  lemma {:induction false} DedentShape(d: nat, floor: nat)
    ensures |Dedent(d, floor)| == if d > floor then d - floor else 0
    ensures forall i :: 0 <= i < |Dedent(d, floor)| ==>
              Dedent(d, floor)[i] == Event(SectionEnd, NoKey, EmptySpan, d - 1 - i)
    decreases d
  {
    if d > floor {
      DedentShape(d - 1, floor);
      var tail := Dedent(d - 1, floor);
      assert Dedent(d, floor) == [Event(SectionEnd, NoKey, EmptySpan, d - 1)] + tail;
      forall i | 0 <= i < |Dedent(d, floor)|
        ensures Dedent(d, floor)[i] == Event(SectionEnd, NoKey, EmptySpan, d - 1 - i)
      {
        if i > 0 {
          assert Dedent(d, floor)[i] == tail[i - 1];
        }
      }
    }
  }

  /** A tab-dialect line walks from the depth before it to the depth after it. */
  lemma TabLineWalks(buf: seq<byte>, p: nat, end: nat, d: nat)
    requires p <= end <= |buf|
    ensures Walk(TabLine(buf, p, end, d).events, d) == Some(TabLine(buf, p, end, d).depth)
  {
    var eol := FindEol(buf, p, end);
    if eol > p {
      assert TabLine(buf, p, end, d) == IndentedLine(buf, p, eol, d);
      ContentLineWalks(buf, LineContent(buf, p, eol), Indent(buf, p, eol), d);
    }
  }

  lemma ContentLineWalks(buf: seq<byte>, content: Span, ind: nat, d: nat)
    requires content.End() <= |buf|
    ensures Walk(ContentLine(buf, content, ind, d).events, d) == Some(ContentLine(buf, content, ind, d).depth)
  {
    if content.len > 0 {
      var out := TabContent(buf, content, if d > ind then ind else d);
      assert ContentLine(buf, content, ind, d) == LineOut(Dedent(d, ind) + out.events, out.depth);
      DedentWalks(d, ind);
      WalkAppend(Dedent(d, ind), out.events, d);
    }
  }

  /**
   * Every event of the archive dialect carries the depth the parser is at
   * (a SectionEnd the depth after closing), and the closes at the end bring
   * the depth back to 0.
   */
  lemma {:induction false} ArchiveFromNests(buf: seq<byte>, p: nat, end: nat, d: nat, v: Variant)
    requires p <= end <= |buf|
    ensures Walk(ArchiveFrom(buf, p, end, d, v), d) == Some(0)
    decreases end - p
  {
    if p == end {
      DedentWalks(d, 0);
    } else {
      var out := TagLine(buf, LineBody(buf, p, end), d, v);
      ArchiveFromNests(buf, NextLine(buf, p, end), end, out.depth, v);
      WalkAppend(out.events, ArchiveFrom(buf, NextLine(buf, p, end), end, out.depth, v), d);
    }
  }

  /** The same for the tab dialect. */
  lemma {:induction false} TabFromNests(buf: seq<byte>, p: nat, end: nat, d: nat)
    requires p <= end <= |buf|
    ensures Walk(TabFrom(buf, p, end, d), d) == Some(0)
    decreases end - p
  {
    if p == end {
      DedentWalks(d, 0);
    } else {
      var out := TabLine(buf, p, end, d);
      TabLineWalks(buf, p, end, d);
      TabFromNests(buf, NextLine(buf, p, end), end, out.depth);
      WalkAppend(out.events, TabFrom(buf, NextLine(buf, p, end), end, out.depth), d);
    }
  }

  /**
   * The header's events are well nested: read from depth 0, every event is at
   * the depth the parser is at, the depth never goes below 0, and every
   * section opened is closed by the end.
   */
  lemma SubmissionEventsNest(buf: seq<byte>, v: Variant)
    ensures Walk(SubmissionEvents(buf, v), 0) == Some(0)
  {
    HeaderEventsNest(buf, Header(buf), v);
  }

  lemma HeaderEventsNest(buf: seq<byte>, sub: Span, v: Variant)
    requires sub.End() <= |buf|
    ensures Walk(HeaderEvents(buf, sub, v), 0) == Some(0)
  {
    if sub.len == 0 {
      assert HeaderEvents(buf, sub, v) == [];
    } else if buf[sub.start] == DASH {
      assert HeaderEvents(buf, sub, v) == PrivacyEvents(buf, sub, FindDoubleNewline(buf, sub, 0));
      PrivacyEventsNest(buf, sub, FindDoubleNewline(buf, sub, 0));
    } else if sub.len >= 3 && buf[sub.start..sub.start + 3] == SectionPrefix {
      assert HeaderEvents(buf, sub, v) == TabFrom(buf, sub.start, sub.End(), 0);
      TabFromNests(buf, sub.start, sub.End(), 0);
    } else {
      assert HeaderEvents(buf, sub, v) == ArchiveFrom(buf, sub.start, sub.End(), 0, v);
      ArchiveFromNests(buf, sub.start, sub.End(), 0, v);
    }
  }

  lemma PrivacyEventsNest(buf: seq<byte>, sub: Span, pe: nat)
    requires sub.End() <= |buf| && pe <= sub.len
    ensures Walk(PrivacyEvents(buf, sub, pe), 0) == Some(0)
  {
    var t := TabSpan(buf, sub, pe);
    TabFromNests(buf, t.start, t.End(), 0);
    if 0 < pe < sub.len {
      WalkKeyValue(PrivacyEvent(sub, pe), TabFrom(buf, t.start, t.End(), 0), 0);
    } else {
      assert PrivacyEvents(buf, sub, pe) == TabFrom(buf, t.start, t.End(), 0);
    }
  }

  /** `s` is empty or lies in [lo, hi). */
  predicate SpanIn(s: Span, lo: nat, hi: nat)
  {
    s.len == 0 || (lo <= s.start && s.End() <= hi)
  }

  /** The key of `e`, when it is a span of the buffer, and its value lie in [lo, hi). */
  predicate EventWithin(e: Event, lo: nat, hi: nat)
  {
    (e.key.Slice? ==> SpanIn(e.key.span, lo, hi)) && SpanIn(e.value, lo, hi)
  }

  /** The number of events of `es` that do not lie in [lo, hi); zero when all of them do. */
  function Outside(es: seq<Event>, lo: nat, hi: nat): (n: nat)
    ensures n <= |es|
    decreases |es|
  {
    if es == [] then 0
    else (if EventWithin(es[0], lo, hi) then 0 else 1) + Outside(es[1..], lo, hi)
  }

  lemma WithinCons(e: Event, es: seq<Event>, lo: nat, hi: nat)
    requires EventWithin(e, lo, hi) && Outside(es, lo, hi) == 0
    ensures Outside([e] + es, lo, hi) == 0
  {
    assert ([e] + es)[0] == e && ([e] + es)[1..] == es;
  }

  lemma WithinOne(e: Event, lo: nat, hi: nat)
    requires EventWithin(e, lo, hi)
    ensures Outside([e], lo, hi) == 0
  {
    assert [e][1..] == [];
  }

  /** Counting escapes distributes over concatenation. */
  lemma {:induction false} OutsideAppend(a: seq<Event>, b: seq<Event>, lo: nat, hi: nat)
    ensures Outside(a + b, lo, hi) == Outside(a, lo, hi) + Outside(b, lo, hi)
    decreases |a|
  {
    if a == [] {
      assert a + b == b;
    } else {
      assert (a + b)[0] == a[0] && (a + b)[1..] == a[1..] + b;
      OutsideAppend(a[1..], b, lo, hi);
    }
  }

  lemma WithinAppend(a: seq<Event>, b: seq<Event>, lo: nat, hi: nat)
    requires Outside(a, lo, hi) == 0 && Outside(b, lo, hi) == 0
    ensures Outside(a + b, lo, hi) == 0
  {
    OutsideAppend(a, b, lo, hi);
  }

  /** Widening the range lets no event escape that did not before. */
  lemma {:induction false} WithinWiden(es: seq<Event>, a: nat, b: nat, lo: nat, hi: nat)
    requires lo <= a && b <= hi
    ensures Outside(es, lo, hi) <= Outside(es, a, b)
    decreases |es|
  {
    if es != [] {
      WithinWiden(es[1..], a, b, lo, hi);
    }
  }

  /** No event escapes exactly when each event lies in the range. */
  lemma {:induction false} WithinEach(es: seq<Event>, lo: nat, hi: nat)
    ensures Outside(es, lo, hi) == 0 <==> forall i :: 0 <= i < |es| ==> EventWithin(es[i], lo, hi)
    decreases |es|
  {
    if es != [] {
      WithinEach(es[1..], lo, hi);
      assert forall i :: 0 < i < |es| ==> es[i] == es[1..][i - 1];
    }
  }

  lemma {:induction false} DedentWithin(d: nat, floor: nat, lo: nat, hi: nat)
    ensures Outside(Dedent(d, floor), lo, hi) == 0
    decreases d
  {
    if d > floor {
      DedentWithin(d - 1, floor, lo, hi);
      WithinCons(Event(SectionEnd, NoKey, EmptySpan, d - 1), Dedent(d - 1, floor), lo, hi);
    }
  }

  lemma TagEventWithin(buf: seq<byte>, key: Span, value: Span, d: nat, lo: nat, hi: nat)
    requires key.End() <= |buf| && SpanIn(key, lo, hi) && SpanIn(value, lo, hi)
    ensures Outside(TagEvent(buf, key, value, d).events, lo, hi) == 0
  {
    if key.len > 0 && buf[key.start] == SLASH {
      WithinOne(Event(SectionEnd, Slice(key), EmptySpan, Dec(d)), lo, hi);
    } else if value.len == 0 {
      WithinOne(Event(SectionStart, Slice(key), EmptySpan, d), lo, hi);
    } else {
      WithinOne(Event(KeyValue, Slice(key), value, d), lo, hi);
    }
  }

  lemma ColonEventWithin(buf: seq<byte>, content: Span, colon: nat, d: nat)
    requires content.start <= colon < content.End() <= |buf|
    ensures Outside(ColonEvent(buf, content, colon, d).events, content.start, content.End()) == 0
  {
    var key := TrimSpan(buf, Span(content.start, colon - content.start));
    var value := TrimSpan(buf, Span(colon + 1, content.End() - colon - 1));
    if value.len == 0 {
      WithinOne(Event(SectionStart, Slice(key), EmptySpan, d), content.start, content.End());
    } else {
      WithinOne(Event(KeyValue, Slice(key), value, d), content.start, content.End());
    }
  }

  /** An archive line's events lie in the line. */
  lemma TagLineWithin(buf: seq<byte>, line: Span, d: nat, v: Variant)
    requires line.End() <= |buf|
    ensures Outside(TagLine(buf, line, d, v).events, line.start, line.End()) == 0
  {
    if line.len > 0 && buf[line.start] == LT {
      var gt := FindByte(buf, line.start, line.End(), GT);
      if gt.Some? {
        var key := TagKey(buf, line.start, gt.value);
        TagEventWithin(buf, key, TagValue(buf, gt.value, line.End()), d, line.start, line.End());
      }
    }
  }

  /** A tab line's events lie in the line. */
  lemma TabLineWithin(buf: seq<byte>, p: nat, end: nat, d: nat)
    requires p <= end <= |buf|
    ensures Outside(TabLine(buf, p, end, d).events, p, end) == 0
  {
    var eol := FindEol(buf, p, end);
    if eol > p {
      assert TabLine(buf, p, end, d) == IndentedLine(buf, p, eol, d);
      var content := LineContent(buf, p, eol);
      ContentLineWithin(buf, content, Indent(buf, p, eol), d);
      WithinWiden(ContentLine(buf, content, Indent(buf, p, eol), d).events, content.start, content.End(), p, end);
    }
  }

  lemma ContentLineWithin(buf: seq<byte>, content: Span, ind: nat, d: nat)
    requires content.End() <= |buf|
    ensures Outside(ContentLine(buf, content, ind, d).events, content.start, content.End()) == 0
  {
    if content.len > 0 {
      var out := TabContent(buf, content, if d > ind then ind else d);
      assert ContentLine(buf, content, ind, d) == LineOut(Dedent(d, ind) + out.events, out.depth);
      TabContentWithin(buf, content, if d > ind then ind else d);
      DedentWithin(d, ind, content.start, content.End());
      WithinAppend(Dedent(d, ind), out.events, content.start, content.End());
    }
  }

  lemma TabContentWithin(buf: seq<byte>, content: Span, d: nat)
    requires content.End() <= |buf| && content.len > 0
    ensures Outside(TabContent(buf, content, d).events, content.start, content.End()) == 0
  {
    var colon := FindByte(buf, content.start, content.End(), COLON);
    if colon.Some? {
      ColonEventWithin(buf, content, colon.value, d);
    } else if buf[content.start] == LT {
      var gt := FindByte(buf, content.start, content.End(), GT);
      if gt.Some? {
        var key := TagKey(buf, content.start, gt.value);
        TagEventWithin(buf, key, TagValue(buf, gt.value, content.End()), d, content.start, content.End());
      }
    }
  }

  lemma {:induction false} ArchiveFromWithin(buf: seq<byte>, p: nat, end: nat, d: nat, v: Variant)
    requires p <= end <= |buf|
    ensures Outside(ArchiveFrom(buf, p, end, d, v), p, end) == 0
    decreases end - p
  {
    if p == end {
      DedentWithin(d, 0, p, end);
    } else {
      var line := LineBody(buf, p, end);
      var out := TagLine(buf, line, d, v);
      var q := NextLine(buf, p, end);
      TagLineWithin(buf, line, d, v);
      WithinWiden(out.events, line.start, line.End(), p, end);
      ArchiveFromWithin(buf, q, end, out.depth, v);
      WithinWiden(ArchiveFrom(buf, q, end, out.depth, v), q, end, p, end);
      WithinAppend(out.events, ArchiveFrom(buf, q, end, out.depth, v), p, end);
    }
  }

  lemma {:induction false} TabFromWithin(buf: seq<byte>, p: nat, end: nat, d: nat)
    requires p <= end <= |buf|
    ensures Outside(TabFrom(buf, p, end, d), p, end) == 0
    decreases end - p
  {
    if p == end {
      DedentWithin(d, 0, p, end);
    } else {
      var out := TabLine(buf, p, end, d);
      var q := NextLine(buf, p, end);
      TabLineWithin(buf, p, end, d);
      TabFromWithin(buf, q, end, out.depth);
      WithinWiden(TabFrom(buf, q, end, out.depth), q, end, p, end);
      WithinAppend(out.events, TabFrom(buf, q, end, out.depth), p, end);
    }
  }

  /**
   * Only the text before the first `<DOCUMENT>` is read: every key and value
   * that points into the buffer lies in the header.
   */
  lemma SubmissionEventsInHeader(buf: seq<byte>, v: Variant)
    ensures forall i :: 0 <= i < |SubmissionEvents(buf, v)| ==> EventWithin(SubmissionEvents(buf, v)[i], 0, HeaderLen(buf))
  {
    var sub := Header(buf);
    HeaderEventsWithin(buf, sub, v);
    WithinWiden(HeaderEvents(buf, sub, v), sub.start, sub.End(), 0, HeaderLen(buf));
    WithinEach(HeaderEvents(buf, sub, v), 0, HeaderLen(buf));
  }

  lemma HeaderEventsWithin(buf: seq<byte>, sub: Span, v: Variant)
    requires sub.End() <= |buf|
    ensures Outside(HeaderEvents(buf, sub, v), sub.start, sub.End()) == 0
  {
    if sub.len == 0 {
      assert HeaderEvents(buf, sub, v) == [];
    } else if buf[sub.start] == DASH {
      assert HeaderEvents(buf, sub, v) == PrivacyEvents(buf, sub, FindDoubleNewline(buf, sub, 0));
      PrivacyEventsWithin(buf, sub, FindDoubleNewline(buf, sub, 0));
    } else if sub.len >= 3 && buf[sub.start..sub.start + 3] == SectionPrefix {
      assert HeaderEvents(buf, sub, v) == TabFrom(buf, sub.start, sub.End(), 0);
      TabFromWithin(buf, sub.start, sub.End(), 0);
    } else {
      assert HeaderEvents(buf, sub, v) == ArchiveFrom(buf, sub.start, sub.End(), 0, v);
      ArchiveFromWithin(buf, sub.start, sub.End(), 0, v);
    }
  }

  lemma PrivacyEventsWithin(buf: seq<byte>, sub: Span, pe: nat)
    requires sub.End() <= |buf| && pe <= sub.len
    ensures Outside(PrivacyEvents(buf, sub, pe), sub.start, sub.End()) == 0
  {
    var t := TabSpan(buf, sub, pe);
    TabFromWithin(buf, t.start, t.End(), 0);
    WithinWiden(TabFrom(buf, t.start, t.End(), 0), t.start, t.End(), sub.start, sub.End());
    if 0 < pe < sub.len {
      WithinOne(PrivacyEvent(sub, pe), sub.start, sub.End());
    }
    WithinAppend(PrivacyHead(sub, pe), TabFrom(buf, t.start, t.End(), 0), sub.start, sub.End());
  }

  // ---------------------------------------------------------------------------
  // The parsers, as the C code runs them
  // ---------------------------------------------------------------------------

  /**
   * `submission_metadata`: the events, the table's capacity and the status
   * (the older copy has no status and leaves it Ok). `calls` counts the
   * calls of `add_event`, which tells the allocator's calls apart.
   */
  class SubmissionMetadata {
    var events: seq<Event>
    var cap: nat
    var calls: nat
    var status: Status

    constructor ()
      ensures events == [] && cap == 0 && calls == 0 && status == Ok
    {
      events := [];
      cap := 0;
      calls := 0;
      status := Ok;
    }

    /** The table, with `ok` recording whether every push so far succeeded. */
    function Snapshot(ok: bool): Table
      reads this
    {
      Table(events, cap, calls, ok)
    }

    /** `add_event`: append `e`, doubling a full table first; false when it cannot grow. */
    method AddEvent(e: Event, alloc: Allocator) returns (added: bool)
      modifies this
      ensures Snapshot(added) == Add(old(Snapshot(true)), e, alloc)
      ensures status == old(status)
    {
      calls := calls + 1;
      if |events| == cap {
        var newCap := if cap == 0 then EventsInitialCap else 2 * cap;
        if !alloc(EventsTable(newCap, calls - 1)) {
          return false;
        }
        cap := newCap;
      }
      events := events + [e];
      return true;
    }
  }

  /**
   * Push `e` and fold the result into `ok`; `stop` when src/secsgml.c would
   * return at this failure (the older copy never does).
   */
  method Emit(m: SubmissionMetadata, e: Event, v: Variant, alloc: Allocator, ok: bool) returns (ok': bool, stop: bool)
    requires ok || v.Legacy?
    modifies m
    ensures m.Snapshot(ok') == AddAll(old(m.Snapshot(ok)), [e], v, alloc)
    ensures stop <==> !ok' && !v.Legacy?
    ensures m.status == old(m.status)
  {
    var added := m.AddEvent(e, alloc);
    ok' := ok && added;
    stop := !ok' && !v.Legacy?;
    assert [e][1..] == [];
  }

  /**
   * Push the events of one line in order, as the C code's `add_event` calls
   * for that line do: src/secsgml.c stops at the first failure.
   */
  method EmitAll(m: SubmissionMetadata, es: seq<Event>, v: Variant, alloc: Allocator, ok: bool) returns (ok': bool, stop: bool)
    requires ok || v.Legacy?
    modifies m
    ensures m.Snapshot(ok') == AddAll(old(m.Snapshot(ok)), es, v, alloc)
    ensures stop <==> !ok' && !v.Legacy?
    ensures m.status == old(m.status)
  {
    ok', stop := ok, false;
    var i := 0;
    while i < |es|
      invariant i <= |es|
      invariant ok' || v.Legacy?
      invariant AddAll(old(m.Snapshot(ok)), es, v, alloc) == AddAll(m.Snapshot(ok'), es[i..], v, alloc)
      invariant m.status == old(m.status)
    {
      assert es[i..] == [es[i]] + es[i + 1..];
      AddAllAppend(m.Snapshot(ok'), [es[i]], es[i + 1..], v, alloc);
      ok', stop := Emit(m, es[i], v, alloc, ok');
      if stop {
        return;
      }
      i := i + 1;
    }
  }

  /**
   * The synthetic closes at the end of either dialect, `while (depth-- > 0)`.
   * The depth goes down to `floor`; the tab dialect also closes this way
   * before a less indented line.
   */
  method CloseSections(m: SubmissionMetadata, d: nat, floor: nat, v: Variant, alloc: Allocator, ok: bool)
    returns (d': nat, ok': bool, stop: bool)
    requires ok || v.Legacy?
    modifies m
    ensures m.Snapshot(ok') == AddAll(old(m.Snapshot(ok)), Dedent(d, floor), v, alloc)
    ensures !stop ==> d' == (if d > floor then floor else d)
    ensures stop <==> !ok' && !v.Legacy?
    ensures m.status == old(m.status)
  {
    d', ok', stop := d, ok, false;
    while d' > floor
      invariant d' <= d && (d' >= floor || d' == d)
      invariant ok' || v.Legacy?
      invariant AddAll(old(m.Snapshot(ok)), Dedent(d, floor), v, alloc) == AddAll(m.Snapshot(ok'), Dedent(d', floor), v, alloc)
      invariant m.status == old(m.status)
      decreases d'
    {
      var e := Event(SectionEnd, NoKey, EmptySpan, d' - 1);
      AddAllAppend(m.Snapshot(ok'), [e], Dedent(d' - 1, floor), v, alloc);
      d' := d' - 1;
      ok', stop := Emit(m, e, v, alloc, ok');
      if stop {
        return;
      }
    }
  }

  /** `parse_archive_metadata` over [lo, hi). */
  method ParseArchive(m: SubmissionMetadata, buf: seq<byte>, lo: nat, hi: nat, v: Variant, alloc: Allocator, ok: bool)
    returns (ok': bool, stop: bool)
    requires lo <= hi <= |buf| && (ok || v.Legacy?)
    modifies m
    ensures m.Snapshot(ok') == AddAll(old(m.Snapshot(ok)), ArchiveFrom(buf, lo, hi, 0, v), v, alloc)
    ensures stop <==> !ok' && !v.Legacy?
    ensures m.status == old(m.status)
  {
    var p, d := lo, 0;
    ok', stop := ok, false;
    while p < hi
      invariant lo <= p <= hi
      invariant ok' || v.Legacy?
      invariant AddAll(old(m.Snapshot(ok)), ArchiveFrom(buf, lo, hi, 0, v), v, alloc)
                == AddAll(m.Snapshot(ok'), ArchiveFrom(buf, p, hi, d, v), v, alloc)
      invariant m.status == old(m.status)
      decreases hi - p
    {
      var out := TagLine(buf, LineBody(buf, p, hi), d, v);
      AddAllAppend(m.Snapshot(ok'), out.events, ArchiveFrom(buf, NextLine(buf, p, hi), hi, out.depth, v), v, alloc);
      ok', stop := EmitAll(m, out.events, v, alloc, ok');
      if stop {
        return;
      }
      d := out.depth;
      p := NextLine(buf, p, hi);
    }
    d, ok', stop := CloseSections(m, d, 0, v, alloc, ok');
  }

  /** `parse_tab_metadata` over [lo, hi). */
  method ParseTab(m: SubmissionMetadata, buf: seq<byte>, lo: nat, hi: nat, v: Variant, alloc: Allocator, ok: bool)
    returns (ok': bool, stop: bool)
    requires lo <= hi <= |buf| && (ok || v.Legacy?)
    modifies m
    ensures m.Snapshot(ok') == AddAll(old(m.Snapshot(ok)), TabFrom(buf, lo, hi, 0), v, alloc)
    ensures stop <==> !ok' && !v.Legacy?
    ensures m.status == old(m.status)
  {
    var p, d := lo, 0;
    ok', stop := ok, false;
    while p < hi
      invariant lo <= p <= hi
      invariant ok' || v.Legacy?
      invariant AddAll(old(m.Snapshot(ok)), TabFrom(buf, lo, hi, 0), v, alloc)
                == AddAll(m.Snapshot(ok'), TabFrom(buf, p, hi, d), v, alloc)
      invariant m.status == old(m.status)
      decreases hi - p
    {
      var out := TabLine(buf, p, hi, d);
      AddAllAppend(m.Snapshot(ok'), out.events, TabFrom(buf, NextLine(buf, p, hi), hi, out.depth), v, alloc);
      ok', stop := EmitAll(m, out.events, v, alloc, ok');
      if stop {
        return;
      }
      d := out.depth;
      p := NextLine(buf, p, hi);
    }
    d, ok', stop := CloseSections(m, d, 0, v, alloc, ok');
  }

  /** `parse_submission_metadata(buf, len)`. */
  method ParseSubmissionMetadata(buf: seq<byte>, v: Variant, alloc: Allocator) returns (m: SubmissionMetadata)
    ensures fresh(m)
    ensures (m.Snapshot(Metadata(buf, v, alloc).0.ok), m.status) == Metadata(buf, v, alloc)
  {
    m := new SubmissionMetadata();
    var found := FindSubspan(buf, 0, DocOpenText);
    var subLen := if found.Some? then found.value else |buf|;
    if subLen == 0 {
      return;
    }
    var sub := LTrimSpan(buf, Span(0, subLen));
    assert sub == Header(buf);
    var ok, stop := ParseHeader(m, buf, sub, v, alloc);
    if stop {
      m.status := OutOfMemory;
    }
  }

  /** The dispatch of `parse_submission_metadata` on the header's first bytes. */
  method ParseHeader(m: SubmissionMetadata, buf: seq<byte>, sub: Span, v: Variant, alloc: Allocator) returns (ok: bool, stop: bool)
    requires sub.End() <= |buf|
    modifies m
    ensures m.Snapshot(ok) == AddAll(old(m.Snapshot(true)), HeaderEvents(buf, sub, v), v, alloc)
    ensures stop <==> !ok && !v.Legacy?
    ensures m.status == old(m.status)
  {
    if sub.len == 0 {
      return true, false;
    }
    if buf[sub.start] == DASH {
      assert HeaderEvents(buf, sub, v) == PrivacyEvents(buf, sub, FindDoubleNewline(buf, sub, 0));
      ok, stop := ParsePrivacy(m, buf, sub, v, alloc);
    } else if sub.len >= 3 && buf[sub.start..sub.start + 3] == SectionPrefix {
      assert HeaderEvents(buf, sub, v) == TabFrom(buf, sub.start, sub.End(), 0);
      ok, stop := ParseTab(m, buf, sub.start, sub.End(), v, alloc, true);
    } else {
      assert HeaderEvents(buf, sub, v) == ArchiveFrom(buf, sub.start, sub.End(), 0, v);
      ok, stop := ParseArchive(m, buf, sub.start, sub.End(), v, alloc, true);
    }
  }

  /** The '-' branch of `parse_submission_metadata`. */
  method ParsePrivacy(m: SubmissionMetadata, buf: seq<byte>, sub: Span, v: Variant, alloc: Allocator) returns (ok: bool, stop: bool)
    requires sub.End() <= |buf|
    modifies m
    ensures m.Snapshot(ok) == AddAll(old(m.Snapshot(true)), PrivacyEvents(buf, sub, FindDoubleNewline(buf, sub, 0)), v, alloc)
    ensures stop <==> !ok && !v.Legacy?
    ensures m.status == old(m.status)
  {
    var pe := FindDoubleNewline(buf, sub, 0);
    var t := TabSpan(buf, sub, pe);
    if 0 < pe < sub.len {
      AddAllAppend(m.Snapshot(true), [PrivacyEvent(sub, pe)], TabFrom(buf, t.start, t.End(), 0), v, alloc);
      ok, stop := Emit(m, PrivacyEvent(sub, pe), v, alloc, true);
      if stop {
        return;
      }
      ok, stop := ParseTab(m, buf, t.start, t.End(), v, alloc, ok);
    } else {
      assert PrivacyEvents(buf, sub, pe) == TabFrom(buf, sub.start, sub.End(), 0);
      ok, stop := ParseTab(m, buf, sub.start, sub.End(), v, alloc, true);
    }
  }
}
