/*
 * The pure helpers of the command-line driver that writes a parsed
 * submission to disk: key comparison, JSON string escaping, the search for a
 * section's end, the grouping of an event range into a JSON object, CSV cell
 * quoting and the choice of a document's file name.
 *
 * The driver writes to a `FILE *`; here every writer returns the bytes it
 * would write. The standardized metadata it prints is the arena and event
 * table of module `Standardize`.
 */
module Output {
  import opened Base
  import opened Metadata
  import Standardize

  const LBRACE: byte := '{' as int
  const RBRACE: byte := '}' as int
  const LBRACKET: byte := '[' as int
  const RBRACKET: byte := ']' as int
  const UNDERSCORE: byte := '_' as int
  const NUL: byte := 0

  // ---------------------------------------------------------------------------
  // Spans of the arena
  // ---------------------------------------------------------------------------

  /** A span the driver may read: empty (its pointer is never followed), or inside the arena. */
  predicate SpanOk(arena: seq<byte>, s: Span)
  {
    s.len == 0 || s.End() <= |arena|
  }

  /** The bytes a readable span designates. */
  function Text(arena: seq<byte>, s: Span): (t: seq<byte>)
    requires SpanOk(arena, s)
    ensures |t| == s.len
  {
    if s.len == 0 then [] else arena[s.start..s.End()]
  }

  /** A standardized event: its key is a span of the arena, and so is its value. */
  predicate EventOk(arena: seq<byte>, e: Event)
  {
    e.key.Slice? && SpanOk(arena, e.key.span) && SpanOk(arena, e.value)
  }

  predicate EventsOk(arena: seq<byte>, es: seq<Event>)
  {
    forall i :: 0 <= i < |es| ==> EventOk(arena, es[i])
  }

  /** The table `standardize_submission_metadata` builds is one the driver can print. */
  lemma StandardizedIsPrintable(buf: seq<byte>, es: seq<Event>, status: Status, alloc: Allocator)
    requires Standardize.EventsIn(buf, es)
    ensures var r := Standardize.Standardize(buf, es, status, alloc);
            EventsOk(r.arena, r.events)
  {
    Standardize.StandardizeMaps(buf, es, status, alloc);
    var r := Standardize.Standardize(buf, es, status, alloc);
    forall i | 0 <= i < |r.events|
      ensures EventOk(r.arena, r.events[i])
    {
      Standardize.UnstandardizedNoneOff(r.arena, buf, es, r.events, i, alloc);
    }
  }

  /** `key_eq`: lengths first, then the bytes; two empty keys are equal. */
  function KeyEq(arena: seq<byte>, a: Span, b: Span): (r: bool)
    requires SpanOk(arena, a) && SpanOk(arena, b)
    ensures r <==> Text(arena, a) == Text(arena, b)
  {
    if a.len != b.len then false
    else if a.len == 0 then true
    else arena[a.start..a.End()] == arena[b.start..b.End()]
  }

  /**
   * A writer that emits `f(c)` for each byte `c` of `s` in turn, as both
   * escaping loops of the driver do.
   */
  function Escaped(f: byte -> seq<byte>, s: seq<byte>): seq<byte>
  {
    if s == [] then [] else f(s[0]) + Escaped(f, s[1..])
  }

  lemma {:induction false} EscapedAppend(f: byte -> seq<byte>, a: seq<byte>, b: seq<byte>)
    ensures Escaped(f, a + b) == Escaped(f, a) + Escaped(f, b)
    decreases |a|
  {
    if a == [] {
      assert a + b == b;
    } else {
      assert (a + b)[1..] == a[1..] + b;
      EscapedAppend(f, a[1..], b);
    }
  }

  /** One more turn of an escaping loop. */
  lemma EscapedSnoc(f: byte -> seq<byte>, s: seq<byte>, i: nat)
    requires i < |s|
    ensures Escaped(f, s[..i + 1]) == Escaped(f, s[..i]) + f(s[i])
  {
    EscapedAppend(f, s[..i], [s[i]]);
    assert s[..i + 1] == s[..i] + [s[i]];
    assert Escaped(f, [s[i]]) == f(s[i]) + Escaped(f, []);
  }

  // ---------------------------------------------------------------------------
  // JSON strings
  // ---------------------------------------------------------------------------

  /** An upper-case hexadecimal digit. */
  function HexDigit(d: nat): (r: byte)
    requires d < 16
    ensures '0' as int <= r <= 'F' as int
  {
    if d < 10 then '0' as int + d else 'A' as int + (d - 10)
  }

  /** The value of a hexadecimal digit; anything else reads as 0. */
  function HexValue(c: byte): (r: nat)
    ensures r < 16
  {
    if '0' as int <= c <= '9' as int then c - '0' as int
    else if 'A' as int <= c <= 'F' as int then c - 'A' as int + 10
    else if 'a' as int <= c <= 'f' as int then c - 'a' as int + 10
    else 0
  }

  lemma HexRoundTrip(d: nat)
    requires d < 16
    ensures HexValue(HexDigit(d)) == d
  {
  }

  /** The bytes `write_json_string` does not copy as they are: quote, backslash, controls, non-ASCII. */
  predicate JsonEscaped(c: byte)
  {
    c == QUOTE || c == BACKSLASH || c < 0x20 || c >= 0x80
  }

  /** `\u%04X` of a byte. */
  function UnicodeEscape(c: byte): (r: seq<byte>)
  {
    [BACKSLASH, 'u' as int, '0' as int, '0' as int, HexDigit(c / 16), HexDigit(c % 16)]
  }

  function JsonChar(c: byte): seq<byte>
  {
    if JsonEscaped(c) then UnicodeEscape(c) else [c]
  }

  /** What `write_json_string` writes for `s`. */
  function JsonString(s: seq<byte>): seq<byte>
  {
    [QUOTE] + Escaped(JsonChar, s) + [QUOTE]
  }

  /** Seven-bit ASCII other than the control characters below space. */
  predicate Printable(c: byte)
  {
    0x20 <= c < 0x80
  }

  lemma {:induction false} JsonCharsPrintable(s: seq<byte>)
    ensures forall i :: 0 <= i < |Escaped(JsonChar, s)| ==> Printable(Escaped(JsonChar, s)[i])
    ensures forall i :: 0 <= i < |Escaped(JsonChar, s)| ==> Escaped(JsonChar, s)[i] != QUOTE
    decreases |s|
  {
    if s != [] {
      JsonCharsPrintable(s[1..]);
      var h, rest := JsonChar(s[0]), Escaped(JsonChar, s[1..]);
      assert forall i :: 0 <= i < |h| ==> Printable(h[i]) && h[i] != QUOTE;
      assert forall i :: |h| <= i < |h + rest| ==> (h + rest)[i] == rest[i - |h|];
    }
  }

  /**
   * The written string is ASCII without control characters below space, and the only quotes in it are the
   * two that delimit it.
   */
  lemma JsonStringPrintable(s: seq<byte>)
    ensures var j := JsonString(s);
            && (forall i :: 0 <= i < |j| ==> Printable(j[i]))
            && j[0] == QUOTE && j[|j| - 1] == QUOTE
            && (forall i :: 0 < i < |j| - 1 ==> j[i] != QUOTE)
  {
    JsonCharsPrintable(s);
    var j := JsonString(s);
    assert forall i :: 0 < i < |j| - 1 ==> j[i] == Escaped(JsonChar, s)[i - 1];
  }

  /**
   * A JSON reader's view of the characters between the quotes, for text whose
   * escapes are all `\u00XX`: each escape stands for the byte XX.
   */
  function JsonUnescape(t: seq<byte>): seq<byte>
  {
    if t == [] then []
    else if t[0] == BACKSLASH && |t| >= 6 then
      [HexValue(t[4]) * 16 + HexValue(t[5])] + JsonUnescape(t[6..])
    else [t[0]] + JsonUnescape(t[1..])
  }

  /** Reading back one written byte, ahead of whatever follows it. */
  lemma JsonCharUnescape(c: byte, rest: seq<byte>)
    ensures JsonUnescape(JsonChar(c) + rest) == [c] + JsonUnescape(rest)
  {
    var t := JsonChar(c) + rest;
    if JsonEscaped(c) {
      HexRoundTrip(c / 16);
      HexRoundTrip(c % 16);
      assert t[0] == BACKSLASH && t[6..] == rest;
      assert t[4] == HexDigit(c / 16) && t[5] == HexDigit(c % 16);
      assert (c / 16) * 16 + c % 16 == c;
    } else {
      assert t[0] == c && t[1..] == rest;
    }
  }

  lemma {:induction false} JsonCharsUnescape(s: seq<byte>)
    ensures JsonUnescape(Escaped(JsonChar, s)) == s
    decreases |s|
  {
    if s != [] {
      JsonCharsUnescape(s[1..]);
      JsonCharUnescape(s[0], Escaped(JsonChar, s[1..]));
      assert s == [s[0]] + s[1..];
    }
  }

  /** Reading the written string back gives the bytes of the span. */
  lemma JsonStringRoundTrip(s: seq<byte>)
    ensures var j := JsonString(s);
            |j| >= 2 && JsonUnescape(j[1..|j| - 1]) == s
  {
    var j := JsonString(s);
    assert j[1..|j| - 1] == Escaped(JsonChar, s);
    JsonCharsUnescape(s);
  }

  /** `write_json_string`, one byte at a time. */
  method WriteJsonString(s: seq<byte>) returns (out: seq<byte>)
    ensures out == JsonString(s)
  {
    out := [QUOTE];
    var i := 0;
    while i < |s|
      invariant i <= |s|
      invariant out == [QUOTE] + Escaped(JsonChar, s[..i])
    {
      var c := s[i];
      ghost var before := out;
      if c == QUOTE || c == BACKSLASH || c < 0x20 || c >= 0x80 {
        out := out + [BACKSLASH, 'u' as int, '0' as int, '0' as int, HexDigit(c / 16), HexDigit(c % 16)];
      } else {
        out := out + [c];
      }
      assert out == before + JsonChar(c);
      EscapedSnoc(JsonChar, s, i);
      AppendAssoc([QUOTE], Escaped(JsonChar, s[..i]), JsonChar(c));
      i := i + 1;
    }
    assert s[..i] == s;
    out := out + [QUOTE];
  }

  // ---------------------------------------------------------------------------
  // Sections
  // ---------------------------------------------------------------------------

  /** `e` closes a section opened at depth `depth`. */
  predicate Closes(e: Event, depth: int)
  {
    e.kind == SectionEnd && e.depth == depth
  }

  /** The first event from `i` on, below `count`, that closes depth `depth`; `count` if none does. */
  function SectionEndFrom(es: seq<Event>, count: nat, depth: int, i: nat): (r: nat)
    requires i <= count <= |es|
    ensures i <= r <= count
    decreases count - i
  {
    if i == count then count
    else if Closes(es[i], depth) then i
    else SectionEndFrom(es, count, depth, i + 1)
  }

  /** What `find_section_end` returns for the section opened at `start`. */
  function SectionEndOf(es: seq<Event>, count: nat, start: nat): (r: nat)
    requires start < count <= |es|
    ensures start < r <= count
  {
    SectionEndFrom(es, count, es[start].depth, start + 1)
  }

  lemma {:induction false} SectionEndFromFirst(es: seq<Event>, count: nat, depth: int, i: nat)
    requires i <= count <= |es|
    ensures var r := SectionEndFrom(es, count, depth, i);
            && (r < count ==> Closes(es[r], depth))
            && (forall j :: i <= j < r ==> !Closes(es[j], depth))
    decreases count - i
  {
    if i < count && !Closes(es[i], depth) {
      SectionEndFromFirst(es, count, depth, i + 1);
    }
  }

  /**
   * The end of a section is the first later event, below `count`, that
   * closes the section's depth; with none, it is `count`.
   */
  lemma SectionEndFirst(es: seq<Event>, count: nat, start: nat)
    requires start < count <= |es|
    ensures var r := SectionEndOf(es, count, start);
            && start < r <= count
            && (r < count ==> Closes(es[r], es[start].depth))
            && (forall j :: start < j < r ==> !Closes(es[j], es[start].depth))
  {
    SectionEndFromFirst(es, count, es[start].depth, start + 1);
  }

  /** `find_section_end`. */
  method FindSectionEnd(es: seq<Event>, count: nat, start: nat) returns (r: nat)
    requires start < count <= |es|
    ensures r == SectionEndOf(es, count, start)
  {
    var depth := es[start].depth;
    var i := start + 1;
    while i < count
      invariant start < i <= count
      invariant SectionEndFrom(es, count, depth, i) == SectionEndOf(es, count, start)
    {
      if es[i].kind == SectionEnd && es[i].depth == depth {
        return i;
      }
      i := i + 1;
    }
    return count;
  }

  // ---------------------------------------------------------------------------
  // CSV cells
  // ---------------------------------------------------------------------------

  /** The bytes that make `write_csv_cell` quote a cell. */
  predicate CsvSpecial(c: byte)
  {
    c == QUOTE || c == COMMA || c == LF || c == CR
  }

  predicate NeedsQuotes(s: seq<byte>)
  {
    exists i :: 0 <= i < |s| && CsvSpecial(s[i])
  }

  /** Inside quotes, a quote is written twice. */
  function CsvChar(c: byte): seq<byte>
  {
    if c == QUOTE then [QUOTE, QUOTE] else [c]
  }

  /** What `write_csv_cell` writes for `s`. */
  function CsvCell(s: seq<byte>): seq<byte>
  {
    if NeedsQuotes(s) then [QUOTE] + Escaped(CsvChar, s) + [QUOTE] else s
  }

  lemma {:induction false} CsvCharsLonger(s: seq<byte>)
    ensures |Escaped(CsvChar, s)| >= |s|
    decreases |s|
  {
    if s != [] {
      CsvCharsLonger(s[1..]);
    }
  }

  /** A cell is written as it is exactly when it holds no quote, comma or line break. */
  lemma CsvQuotedIff(s: seq<byte>)
    ensures CsvCell(s) == s <==> !NeedsQuotes(s)
  {
    CsvCharsLonger(s);
  }

  /** A CSV reader's view of one field (section 2 of RFC 4180). */
  function CsvField(t: seq<byte>): seq<byte>
  {
    if |t| >= 2 && t[0] == QUOTE then Undoubled(t[1..|t| - 1]) else t
  }

  /** The text of an escaped field: a doubled quote stands for one quote. */
  function Undoubled(u: seq<byte>): seq<byte>
  {
    if u == [] then []
    else if |u| >= 2 && u[0] == QUOTE && u[1] == QUOTE then [QUOTE] + Undoubled(u[2..])
    else [u[0]] + Undoubled(u[1..])
  }

  lemma {:induction false} UndoubledDoubled(s: seq<byte>)
    ensures Undoubled(Escaped(CsvChar, s)) == s
    decreases |s|
  {
    if s != [] {
      var rest := Escaped(CsvChar, s[1..]);
      UndoubledDoubled(s[1..]);
      var t := CsvChar(s[0]) + rest;
      assert t[|CsvChar(s[0])|..] == rest;
    }
  }

  /** Reading a written cell back gives the span's bytes. */
  lemma CsvRoundTrip(s: seq<byte>)
    ensures CsvField(CsvCell(s)) == s
  {
    if NeedsQuotes(s) {
      var t := CsvCell(s);
      assert t[1..|t| - 1] == Escaped(CsvChar, s);
      UndoubledDoubled(s);
    } else if |s| >= 2 {
      assert !CsvSpecial(s[0]);
    }
  }

  /** `write_csv_cell`: a scan for a byte that needs quoting, then the copy. */
  method WriteCsvCell(s: seq<byte>) returns (out: seq<byte>)
    ensures out == CsvCell(s)
  {
    var needsQuotes := false;
    var i := 0;
    while i < |s|
      invariant i <= |s|
      invariant forall k :: 0 <= k < i ==> !CsvSpecial(s[k])
    {
      var c := s[i];
      if c == QUOTE || c == COMMA || c == LF || c == CR {
        needsQuotes := true;
        break;
      }
      i := i + 1;
    }
    if !needsQuotes {
      return s;
    }
    out := [QUOTE];
    i := 0;
    while i < |s|
      invariant i <= |s|
      invariant out == [QUOTE] + Escaped(CsvChar, s[..i])
    {
      var c := s[i];
      ghost var before := out;
      if c == QUOTE {
        out := out + [QUOTE];
      }
      out := out + [c];
      assert out == before + CsvChar(c);
      EscapedSnoc(CsvChar, s, i);
      AppendAssoc([QUOTE], Escaped(CsvChar, s[..i]), CsvChar(c));
      i := i + 1;
    }
    assert s[..i] == s;
    out := out + [QUOTE];
  }

  // ---------------------------------------------------------------------------
  // Document file names
  // ---------------------------------------------------------------------------

  /** The bytes `sanitize_filename` replaces: those a Windows file name may not hold. */
  predicate Reserved(c: byte)
  {
    || c == BACKSLASH || c == SLASH || c == COLON || c == '*' as int || c == '?' as int
    || c == QUOTE || c == LT || c == GT || c == '|' as int
  }

  function SafeByte(c: byte): (r: byte)
  {
    if Reserved(c) then UNDERSCORE else c
  }

  /** The name with each reserved byte replaced by an underscore. */
  function Sanitized(name: seq<byte>): (r: seq<byte>)
    ensures |r| == |name|
  {
    seq(|name|, i requires 0 <= i < |name| => SafeByte(name[i]))
  }

  /**
   * Sanitizing keeps every other byte, leaves no reserved byte, and a
   * sanitized name is left as it is.
   */
  lemma SanitizedSafe(name: seq<byte>)
    ensures forall i :: 0 <= i < |name| ==> !Reserved(Sanitized(name)[i])
    ensures forall i :: 0 <= i < |name| && !Reserved(name[i]) ==> Sanitized(name)[i] == name[i]
    ensures Sanitized(Sanitized(name)) == Sanitized(name)
  {
  }

  function Digit(d: nat): (r: byte)
    requires d < 10
  {
    '0' as int + d
  }

  predicate IsDigit(c: byte)
  {
    '0' as int <= c <= '9' as int
  }

  /** `%zu`: the decimal digits of `n`. */
  function Decimal(n: nat): (r: seq<byte>)
    ensures |r| > 0
  {
    if n < 10 then [Digit(n)] else Decimal(n / 10) + [Digit(n % 10)]
  }

  /** The number a string of decimal digits spells. */
  function DecimalValue(t: seq<byte>): nat
  {
    if t == [] then 0
    else DecimalValue(t[..|t| - 1]) * 10 + (if IsDigit(t[|t| - 1]) then t[|t| - 1] - '0' as int else 0)
  }

  /** `%zu` writes digits only, with no leading zero, and they spell `n`. */
  lemma {:induction false} DecimalRoundTrip(n: nat)
    ensures var t := Decimal(n);
            && (forall i :: 0 <= i < |t| ==> IsDigit(t[i]))
            && (|t| > 1 ==> t[0] != '0' as int)
            && DecimalValue(t) == n
  {
    if n >= 10 {
      DecimalRoundTrip(n / 10);
      var t := Decimal(n);
      assert t[..|t| - 1] == Decimal(n / 10);
    }
  }

  /** The name of a document whose file name is unusable: `doc_%zu.bin`. */
  function DefaultName(index: nat): seq<byte>
  {
    Lit("doc_") + Decimal(index) + Lit(".bin")
  }

  /** What `snprintf` keeps of `t` in a buffer of `cap` bytes: all but room for the NUL. */
  function Truncated(t: seq<byte>, cap: nat): (r: seq<byte>)
    requires cap > 0
    ensures |r| < cap && IsPrefix(r, t)
  {
    t[..Min(|t|, cap - 1)]
  }

  /** The C string `sanitize_filename` leaves in a buffer of `cap` bytes. */
  function FileName(name: seq<byte>, cap: nat, index: nat): seq<byte>
    requires cap > 0
  {
    var copied := Truncated(Sanitized(name), cap);
    if |copied| > 0 then copied else Truncated(DefaultName(index), cap)
  }

  /**
   * The file name fits the buffer with its NUL, holds no reserved byte, and
   * is empty only when the buffer has room for the NUL alone. A non-empty
   * name is used, sanitized and cut to fit; an empty one gives
   * `doc_<index>.bin`, whole when it fits.
   */
  lemma FileNameChoice(name: seq<byte>, cap: nat, index: nat)
    requires cap > 0
    ensures var r := FileName(name, cap, index);
            && |r| < cap
            && (forall i :: 0 <= i < |r| ==> !Reserved(r[i]))
            && (|r| == 0 <==> cap == 1)
            && (|name| > 0 ==> r == Sanitized(name)[..Min(|name|, cap - 1)])
            && (|name| == 0 ==> IsPrefix(r, DefaultName(index)))
            && (|name| == 0 && |DefaultName(index)| < cap ==> r == DefaultName(index))
  {
    SanitizedSafe(name);
    DecimalRoundTrip(index);
    var d := DefaultName(index);
    assert forall i :: 0 <= i < |d| ==> !Reserved(d[i]) by {
      forall i | 0 <= i < |d|
        ensures !Reserved(d[i])
      {
        if 4 <= i < |d| - 4 {
          assert d[i] == Decimal(index)[i - 4];
        }
      }
    }
  }

  /** `snprintf(dst, cap, "%s", t)` into a buffer with room for at least the NUL. */
  method PutTruncated(dst: array<byte>, t: seq<byte>)
    requires dst.Length > 0
    modifies dst
    ensures var r := Truncated(t, dst.Length);
            dst[..|r|] == r && dst[|r|] == NUL && dst[|r| + 1..] == old(dst[|r| + 1..])
  {
    var n := Min(|t|, dst.Length - 1);
    var i := 0;
    while i < n
      invariant i <= n
      invariant forall j :: 0 <= j < i ==> dst[j] == t[j]
      invariant forall j :: i <= j < dst.Length ==> dst[j] == old(dst[j])
    {
      dst[i] := t[i];
      i := i + 1;
    }
    dst[n] := NUL;
    assert dst[..n] == t[..n];
    assert dst[n + 1..] == old(dst[n + 1..]);
  }

  /** `sanitize_filename`: the C string `FileName` describes, in a buffer of `dst.Length` bytes. */
  method SanitizeFilename(dst: array<byte>, name: seq<byte>, index: nat)
    modifies dst
    ensures dst.Length == 0 ==> dst[..] == old(dst[..])
    ensures dst.Length > 0 ==>
            var r := FileName(name, dst.Length, index);
            dst[..|r|] == r && dst[|r|] == NUL && dst[|r| + 1..] == old(dst[|r| + 1..])
  {
    if dst.Length == 0 {
      return;
    }
    var pos := 0;
    if |name| > 0 {
      var i := 0;
      while i < |name| && pos + 1 < dst.Length
        invariant pos == i <= |name| && pos < dst.Length
        invariant forall j :: 0 <= j < pos ==> dst[j] == SafeByte(name[j])
        invariant forall j :: pos <= j < dst.Length ==> dst[j] == old(dst[j])
      {
        var c := name[i];
        if c == BACKSLASH || c == SLASH || c == COLON || c == '*' as int || c == '?' as int
          || c == QUOTE || c == LT || c == GT || c == '|' as int
        {
          c := UNDERSCORE;
        }
        dst[pos] := c;
        pos := pos + 1;
        i := i + 1;
      }
      dst[pos] := NUL;
      if pos > 0 {
        assert Truncated(Sanitized(name), dst.Length) == Sanitized(name)[..pos];
        assert dst[..pos] == Sanitized(name)[..pos];
        assert dst[pos + 1..] == old(dst[pos + 1..]);
        return;
      }
    }
    PutTruncated(dst, DefaultName(index));
  }

  // ---------------------------------------------------------------------------
  // Objects: the members of a range
  // ---------------------------------------------------------------------------

  /** `json_member`: one member of the object being written. */
  datatype Member = Member(key: Span, kind: EventKind, idx: nat, endIdx: nat)

  /** Event `j` is one that becomes a member of an object written at depth `depth`. */
  predicate Candidate(es: seq<Event>, depth: int, j: nat)
    requires j < |es|
  {
    es[j].depth == depth + 1 && (es[j].kind == KeyValue || es[j].kind == SectionStart)
  }

  predicate NoCandidate(es: seq<Event>, depth: int, lo: nat, hi: nat)
    requires hi <= |es|
  {
    forall j :: lo <= j < hi ==> !Candidate(es, depth, j)
  }

  /**
   * `m` is the member event `m.idx` makes in a range ending at `end`: its key
   * and kind, and, for a section, the index of the section's end.
   */
  predicate MemberAt(es: seq<Event>, end: nat, depth: int, m: Member)
    requires end <= |es|
  {
    && m.idx < end && Candidate(es, depth, m.idx)
    && es[m.idx].key == Slice(m.key) && m.kind == es[m.idx].kind
    && (m.kind == KeyValue ==> m.endIdx == m.idx)
    && (m.kind == SectionStart ==> m.endIdx == SectionEndOf(es, end, m.idx))
  }

  /** The first loop of `write_object_range`, from event `i` on, with `ms` collected so far. */
  function MembersFrom(arena: seq<byte>, es: seq<Event>, start: nat, end: nat, depth: int, i: nat,
                       ms: seq<Member>, alloc: Allocator): (r: seq<Member>)
    requires EventsOk(arena, es) && end <= |es| && start <= i
    requires forall k :: 0 <= k < |ms| ==> start <= ms[k].idx && MemberAt(es, end, depth, ms[k])
    ensures IsPrefix(ms, r)
    ensures forall k :: 0 <= k < |r| ==> start <= r[k].idx && MemberAt(es, end, depth, r[k])
    ensures forall k :: 0 <= k < |r| ==> SpanOk(arena, r[k].key)
    decreases end - i
  {
    if i >= end then ms
    else if es[i].depth != depth + 1 then MembersFrom(arena, es, start, end, depth, i + 1, ms, alloc)
    else if es[i].kind == KeyValue then
      if !alloc(MemberList(|ms| + 1, start)) then ms
      else MembersFrom(arena, es, start, end, depth, i + 1, ms + [Member(es[i].key.span, KeyValue, i, i)], alloc)
    else if es[i].kind == SectionStart then
      var e := SectionEndOf(es, end, i);
      if !alloc(MemberList(|ms| + 1, start)) then ms
      else MembersFrom(arena, es, start, end, depth, e + 1, ms + [Member(es[i].key.span, SectionStart, i, e)], alloc)
    else MembersFrom(arena, es, start, end, depth, i + 1, ms, alloc)
  }

  /** The members of the object written for events `start` to `end` at depth `depth`. */
  function Members(arena: seq<byte>, es: seq<Event>, start: nat, end: nat, depth: int, alloc: Allocator): seq<Member>
    requires EventsOk(arena, es) && end <= |es|
  {
    MembersFrom(arena, es, start, end, depth, start, [], alloc)
  }

  /** Where the search for the next member resumes: past the last member's end. */
  function Resume(start: nat, ms: seq<Member>): nat
  {
    if ms == [] then start else ms[|ms| - 1].endIdx + 1
  }

  /**
   * `ms` lists members in order; between two of them, and before the first,
   * no event would have made a member.
   */
  predicate Laid(es: seq<Event>, start: nat, end: nat, depth: int, ms: seq<Member>)
    requires end <= |es|
  {
    && (forall k :: 0 <= k < |ms| ==> start <= ms[k].idx && MemberAt(es, end, depth, ms[k]))
    && (forall k :: 0 <= k < |ms| - 1 ==>
          ms[k].endIdx < ms[k + 1].idx && NoCandidate(es, depth, ms[k].endIdx + 1, ms[k + 1].idx))
    && (|ms| > 0 ==> NoCandidate(es, depth, start, ms[0].idx))
  }

  /** What the first loop of `write_object_range` has established on reaching event `i`. */
  predicate Searched(es: seq<Event>, start: nat, end: nat, depth: int, i: nat, ms: seq<Member>)
    requires end <= |es|
  {
    Laid(es, start, end, depth, ms) && Resume(start, ms) <= i && NoCandidate(es, depth, Resume(start, ms), Min(i, end))
  }

  /** The loop's state after event `i` when the loop goes on. */
  function NextSearch(es: seq<Event>, end: nat, i: nat, ms: seq<Member>): (nat, seq<Member>)
    requires i < end <= |es| && es[i].key.Slice?
  {
    if es[i].kind == KeyValue then (i + 1, ms + [Member(es[i].key.span, KeyValue, i, i)])
    else if es[i].kind == SectionStart then
      var e := SectionEndOf(es, end, i);
      (e + 1, ms + [Member(es[i].key.span, SectionStart, i, e)])
    else (i + 1, ms)
  }

  /** An event that makes no member leaves the list as it is. */
  lemma SearchSkip(arena: seq<byte>, es: seq<Event>, start: nat, end: nat, depth: int, i: nat,
                   ms: seq<Member>, alloc: Allocator)
    requires EventsOk(arena, es) && i < end <= |es| && start <= i && Searched(es, start, end, depth, i, ms)
    requires !Candidate(es, depth, i)
    ensures Searched(es, start, end, depth, i + 1, ms)
    ensures MembersFrom(arena, es, start, end, depth, i, ms, alloc) == MembersFrom(arena, es, start, end, depth, i + 1, ms, alloc)
  {
    assert Min(i + 1, end) == i + 1;
  }

  /** An event that makes a member, when the list can grow, adds it and moves past it. */
  lemma SearchTake(arena: seq<byte>, es: seq<Event>, start: nat, end: nat, depth: int, i: nat,
                   ms: seq<Member>, alloc: Allocator)
    requires EventsOk(arena, es) && i < end <= |es| && start <= i && Searched(es, start, end, depth, i, ms)
    requires Candidate(es, depth, i) && alloc(MemberList(|ms| + 1, start))
    ensures var (i1, ms1) := NextSearch(es, end, i, ms);
            && i < i1 && Searched(es, start, end, depth, i1, ms1)
            && MembersFrom(arena, es, start, end, depth, i, ms, alloc) == MembersFrom(arena, es, start, end, depth, i1, ms1, alloc)
  {
    var (i1, ms1) := NextSearch(es, end, i, ms);
    LaidAppend(es, start, end, depth, ms, ms1[|ms|]);
    assert Resume(start, ms1) == i1;
    MembersFromCandidate(arena, es, start, end, depth, i, ms, alloc);
  }

  /** The first loop's recursion at a candidate event is the step `NextSearch` takes. */
  lemma MembersFromCandidate(arena: seq<byte>, es: seq<Event>, start: nat, end: nat, depth: int, i: nat,
                             ms: seq<Member>, alloc: Allocator)
    requires EventsOk(arena, es) && i < end <= |es| && start <= i && Candidate(es, depth, i)
    requires forall k :: 0 <= k < |ms| ==> start <= ms[k].idx && MemberAt(es, end, depth, ms[k])
    requires alloc(MemberList(|ms| + 1, start))
    ensures var (i1, ms1) := NextSearch(es, end, i, ms);
            && (forall k :: 0 <= k < |ms1| ==> start <= ms1[k].idx && MemberAt(es, end, depth, ms1[k]))
            && MembersFrom(arena, es, start, end, depth, i, ms, alloc) == MembersFrom(arena, es, start, end, depth, i1, ms1, alloc)
  {
    var m := if es[i].kind == KeyValue then Member(es[i].key.span, KeyValue, i, i)
             else Member(es[i].key.span, SectionStart, i, SectionEndOf(es, end, i));
    assert MemberAt(es, end, depth, m);
    var ms1 := ms + [m];
    assert forall k :: 0 <= k < |ms| ==> ms1[k] == ms[k];
    assert NextSearch(es, end, i, ms).1 == ms1;
  }

  lemma {:induction false} MembersFromLaid(arena: seq<byte>, es: seq<Event>, start: nat, end: nat, depth: int, i: nat,
                                           ms: seq<Member>, alloc: Allocator)
    requires EventsOk(arena, es) && end <= |es| && start <= i && Searched(es, start, end, depth, i, ms)
    ensures var r := MembersFrom(arena, es, start, end, depth, i, ms, alloc);
            && Laid(es, start, end, depth, r)
            && ((forall n :: alloc(MemberList(n, start))) ==> NoCandidate(es, depth, Resume(start, r), end))
    decreases end - i
  {
    if i >= end {
      assert Min(i, end) == end;
    } else if !Candidate(es, depth, i) {
      SearchSkip(arena, es, start, end, depth, i, ms, alloc);
      MembersFromLaid(arena, es, start, end, depth, i + 1, ms, alloc);
    } else if alloc(MemberList(|ms| + 1, start)) {
      SearchTake(arena, es, start, end, depth, i, ms, alloc);
      var (i1, ms1) := NextSearch(es, end, i, ms);
      MembersFromLaid(arena, es, start, end, depth, i1, ms1, alloc);
    }
  }

  /** A member found where the search resumed extends a laid-out list. */
  lemma LaidAppend(es: seq<Event>, start: nat, end: nat, depth: int, ms: seq<Member>, m: Member)
    requires end <= |es| && Laid(es, start, end, depth, ms)
    requires start <= m.idx && MemberAt(es, end, depth, m)
    requires Resume(start, ms) <= m.idx && NoCandidate(es, depth, Resume(start, ms), m.idx)
    ensures Laid(es, start, end, depth, ms + [m])
  {
    var ms1 := ms + [m];
    assert forall k :: 0 <= k < |ms| ==> ms1[k] == ms[k];
    assert ms1[|ms|] == m;
    forall k | 0 <= k < |ms1|
      ensures start <= ms1[k].idx && MemberAt(es, end, depth, ms1[k])
    {
    }
    forall k | 0 <= k < |ms1| - 1
      ensures ms1[k].endIdx < ms1[k + 1].idx && NoCandidate(es, depth, ms1[k].endIdx + 1, ms1[k + 1].idx)
    {
      if k == |ms| - 1 {
        assert ms1[k] == ms[|ms| - 1] && Resume(start, ms) == ms[|ms| - 1].endIdx + 1;
      }
    }
    if |ms| > 0 {
      assert ms1[0] == ms[0];
    } else {
      assert Resume(start, ms) == start;
    }
  }

  /**
   * The members of a range are its events at depth `depth + 1` that open a
   * section or hold a value, in order. A section member reaches to the end
   * that matches it, and the next member comes after that end, so nothing
   * inside a section becomes a member. When every allocation succeeds, no
   * such event is passed over up to `end`.
   */
  lemma MembersLaid(arena: seq<byte>, es: seq<Event>, start: nat, end: nat, depth: int, alloc: Allocator)
    requires EventsOk(arena, es) && end <= |es|
    ensures var ms := Members(arena, es, start, end, depth, alloc);
            && Laid(es, start, end, depth, ms)
            && ((forall n :: alloc(MemberList(n, start))) ==> NoCandidate(es, depth, Resume(start, ms), end))
  {
    assert Searched(es, start, end, depth, start, []);
    MembersFromLaid(arena, es, start, end, depth, start, [], alloc);
  }

  /** The text of each member's key. */
  function KeyTexts(arena: seq<byte>, ms: seq<Member>): (ks: seq<seq<byte>>)
    requires forall k :: 0 <= k < |ms| ==> SpanOk(arena, ms[k].key)
    ensures |ks| == |ms|
  {
    seq(|ms|, k requires 0 <= k < |ms| => Text(arena, ms[k].key))
  }

  // ---------------------------------------------------------------------------
  // Objects: the distinct keys and their counts
  // ---------------------------------------------------------------------------

  /**
   * `uniq_keys` and `uniq_counts`. The C code keeps spans and compares them
   * with `key_eq`; by `KeyEq`'s contract that compares their texts, which
   * is what the table holds here.
   */
  datatype Tally = Tally(keys: seq<seq<byte>>, counts: seq<nat>)

  /** The loop that looks a key up in `uniq_keys`: its index, or `|keys|`. */
  function FindKeyFrom(keys: seq<seq<byte>>, x: seq<byte>, j: nat): (r: nat)
    requires j <= |keys|
    ensures j <= r <= |keys|
    ensures r < |keys| ==> keys[r] == x
    ensures forall k :: j <= k < r ==> keys[k] != x
    decreases |keys| - j
  {
    if j == |keys| then |keys| else if keys[j] == x then j else FindKeyFrom(keys, x, j + 1)
  }

  function FindKey(keys: seq<seq<byte>>, x: seq<byte>): (r: nat)
    ensures r <= |keys| && (r < |keys| <==> x in keys) && (r < |keys| ==> keys[r] == x)
    ensures forall j :: 0 <= j < r ==> keys[j] != x
  {
    FindKeyFrom(keys, x, 0)
  }

  /**
   * The second loop of `write_object_range`, from member `i` on, for the
   * object whose events start at `at`.
   */
  function TallyFrom(ks: seq<seq<byte>>, i: nat, t: Tally, at: nat, alloc: Allocator): (r: Tally)
    requires i <= |ks| && |t.keys| == |t.counts|
    ensures |r.keys| == |r.counts|
    decreases |ks| - i
  {
    if i == |ks| then t
    else
      var k := FindKey(t.keys, ks[i]);
      if k < |t.keys| then TallyFrom(ks, i + 1, Tally(t.keys, t.counts[k := t.counts[k] + 1]), at, alloc)
      else if !alloc(KeyList(|t.keys| + 1, at)) || !alloc(CountList(|t.keys| + 1, at)) then t
      else TallyFrom(ks, i + 1, Tally(t.keys + [ks[i]], t.counts + [1]), at, alloc)
  }

  function TallyOf(ks: seq<seq<byte>>, at: nat, alloc: Allocator): (r: Tally)
    ensures |r.keys| == |r.counts|
  {
    TallyFrom(ks, 0, Tally([], []), at, alloc)
  }

  /** `t` holds each key of `p` once, with the number of times it occurs in `p`. */
  ghost predicate Tallies(t: Tally, p: seq<seq<byte>>)
  {
    && |t.keys| == |t.counts|
    && (forall a, b :: 0 <= a < b < |t.keys| ==> t.keys[a] != t.keys[b])
    && (forall x :: x in t.keys <==> x in p)
    && (forall k :: 0 <= k < |t.keys| ==> t.counts[k] == multiset(p)[t.keys[k]])
  }

  lemma TallyStep(ks: seq<seq<byte>>, i: nat, t: Tally)
    requires i < |ks| && Tallies(t, ks[..i])
    ensures var k := FindKey(t.keys, ks[i]);
            k < |t.keys| ==> Tallies(Tally(t.keys, t.counts[k := t.counts[k] + 1]), ks[..i + 1])
    ensures FindKey(t.keys, ks[i]) == |t.keys| ==> Tallies(Tally(t.keys + [ks[i]], t.counts + [1]), ks[..i + 1])
  {
    assert ks[..i + 1] == ks[..i] + [ks[i]];
    var k := FindKey(t.keys, ks[i]);
    if k == |t.keys| {
      var t1 := Tally(t.keys + [ks[i]], t.counts + [1]);
      forall x
        ensures x in t1.keys <==> x in ks[..i + 1]
      {
        assert x in t1.keys <==> x in t.keys || x == ks[i];
      }
    }
  }

  lemma {:induction false} TallyFromTallies(ks: seq<seq<byte>>, i: nat, t: Tally, at: nat, alloc: Allocator) returns (p: nat)
    requires i <= |ks| && Tallies(t, ks[..i])
    ensures i <= p <= |ks| && Tallies(TallyFrom(ks, i, t, at, alloc), ks[..p])
    ensures (forall n :: alloc(KeyList(n, at)) && alloc(CountList(n, at))) ==> p == |ks|
    decreases |ks| - i
  {
    if i == |ks| {
      p := i;
    } else {
      TallyStep(ks, i, t);
      var k := FindKey(t.keys, ks[i]);
      if k < |t.keys| {
        p := TallyFromTallies(ks, i + 1, Tally(t.keys, t.counts[k := t.counts[k] + 1]), at, alloc);
      } else if !alloc(KeyList(|t.keys| + 1, at)) || !alloc(CountList(|t.keys| + 1, at)) {
        p := i;
      } else {
        p := TallyFromTallies(ks, i + 1, Tally(t.keys + [ks[i]], t.counts + [1]), at, alloc);
      }
    }
  }

  /**
   * The key table holds the distinct keys of the members counted, each once
   * with its number of occurrences; the members counted are all of them
   * unless growing the table failed.
   */
  lemma TallyCounts(ks: seq<seq<byte>>, at: nat, alloc: Allocator) returns (p: nat)
    ensures p <= |ks| && Tallies(TallyOf(ks, at, alloc), ks[..p])
    ensures (forall n :: alloc(KeyList(n, at)) && alloc(CountList(n, at))) ==> p == |ks|
  {
    assert ks[..0] == [];
    p := TallyFromTallies(ks, 0, Tally([], []), at, alloc);
  }

  // ---------------------------------------------------------------------------
  // Objects: which member is written where
  // ---------------------------------------------------------------------------

  /**
   * One field of the written object: a lone member, or, for a repeated key,
   * the array of every member with that key, written where the key first
   * occurs. Numbers index the member list.
   */
  datatype Group = Single(member: nat) | Array(first: nat, members: seq<nat>)
  {
    /** The member whose key the field is written under. */
    function Lead(): nat
    {
      if Single? then member else first
    }
  }

  /** The members from `j` on whose key is `x`, in order. */
  function SameKeyFrom(ks: seq<seq<byte>>, x: seq<byte>, j: nat): (r: seq<nat>)
    requires j <= |ks|
    ensures forall k :: k in r ==> j <= k < |ks|
    decreases |ks| - j
  {
    if j == |ks| then []
    else if ks[j] == x then [j] + SameKeyFrom(ks, x, j + 1)
    else SameKeyFrom(ks, x, j + 1)
  }

  /** `SameKeyFrom` lists exactly the members from `j` on with key `x`, in increasing order. */
  lemma {:induction false} SameKeyFromMembers(ks: seq<seq<byte>>, x: seq<byte>, j: nat)
    requires j <= |ks|
    ensures forall k :: k in SameKeyFrom(ks, x, j) <==> j <= k < |ks| && ks[k] == x
    ensures forall a, b :: 0 <= a < b < |SameKeyFrom(ks, x, j)| ==> SameKeyFrom(ks, x, j)[a] < SameKeyFrom(ks, x, j)[b]
    decreases |ks| - j
  {
    if j < |ks| {
      SameKeyFromMembers(ks, x, j + 1);
      var r, rest := SameKeyFrom(ks, x, j), SameKeyFrom(ks, x, j + 1);
      if ks[j] == x {
        assert r == [j] + rest;
        assert forall k :: k in r <==> k == j || k in rest;
        forall a, b | 0 <= a < b < |r|
          ensures r[a] < r[b]
        {
          assert r[b] == rest[b - 1] && rest[b - 1] in rest;
          if a > 0 {
            assert r[a] == rest[a - 1];
          }
        }
      }
    }
  }

  function SameKey(ks: seq<seq<byte>>, x: seq<byte>): seq<nat>
  {
    SameKeyFrom(ks, x, 0)
  }

  /** The third loop of `write_object_range`, from member `i` on, as the fields it writes. */
  function EmitFrom(ks: seq<seq<byte>>, t: Tally, i: nat, emitted: seq<bool>): (gs: seq<Group>)
    requires i <= |ks| && |t.keys| == |t.counts| == |emitted|
    ensures forall g :: g in gs ==> g.Lead() < |ks| && (g.Array? ==> forall j :: j in g.members ==> j < |ks|)
    decreases |ks| - i
  {
    if i == |ks| then []
    else
      var k := FindKey(t.keys, ks[i]);
      if k == |t.keys| then EmitFrom(ks, t, i + 1, emitted)
      else if t.counts[k] > 1 && emitted[k] then EmitFrom(ks, t, i + 1, emitted)
      else if t.counts[k] > 1 then [Array(i, SameKey(ks, ks[i]))] + EmitFrom(ks, t, i + 1, emitted[k := true])
      else [Single(i)] + EmitFrom(ks, t, i + 1, emitted)
  }

  /** The fields `write_object_range` writes for members with keys `ks`. */
  function Groups(ks: seq<seq<byte>>, at: nat, alloc: Allocator): (gs: seq<Group>)
    ensures forall g :: g in gs ==> g.Lead() < |ks| && (g.Array? ==> forall j :: j in g.members ==> j < |ks|)
  {
    var t := TallyOf(ks, at, alloc);
    EmitFrom(ks, t, 0, seq(|t.keys|, _ => false))
  }

  /**
   * The reference layout of an object: one field per distinct key, in order
   * of first occurrence; an array of all its members when the key occurs
   * more than once.
   */
  function Fields(ks: seq<seq<byte>>, i: nat): (gs: seq<Group>)
    requires i <= |ks|
    ensures forall g :: g in gs ==> i <= g.Lead() < |ks| && ks[g.Lead()] !in ks[..g.Lead()]
    decreases |ks| - i
  {
    if i == |ks| then [] else FieldAt(ks, i) + Fields(ks, i + 1)
  }

  /** The field member `i` leads: none when its key occurred before. */
  function FieldAt(ks: seq<seq<byte>>, i: nat): (gs: seq<Group>)
    requires i < |ks|
  {
    if ks[i] in ks[..i] then []
    else [if multiset(ks)[ks[i]] > 1 then Array(i, SameKey(ks, ks[i])) else Single(i)]
  }

  /** Member `i` is the first with its key. */
  lemma FirstOccurrenceCount(ks: seq<seq<byte>>, i: nat)
    requires i < |ks|
    ensures multiset(ks)[ks[i]] >= 1
    ensures ks[i] in ks[..i] ==> multiset(ks)[ks[i]] > 1
  {
    assert ks == ks[..i] + [ks[i]] + ks[i + 1..];
  }

  /** `emitted` marks the repeated keys whose array has been written, before member `i`. */
  ghost predicate EmittedBefore(ks: seq<seq<byte>>, t: Tally, i: nat, emitted: seq<bool>)
    requires i <= |ks| && |t.keys| == |t.counts| == |emitted|
  {
    forall k :: 0 <= k < |t.keys| ==> (emitted[k] <==> t.counts[k] > 1 && t.keys[k] in ks[..i])
  }

  /** `emitted` after member `i`'s turn. */
  function EmitNext(ks: seq<seq<byte>>, t: Tally, i: nat, emitted: seq<bool>): (r: seq<bool>)
    requires i < |ks| && |t.keys| == |t.counts| == |emitted|
    ensures |r| == |emitted|
  {
    var k := FindKey(t.keys, ks[i]);
    if k < |t.keys| && t.counts[k] > 1 && !emitted[k] then emitted[k := true] else emitted
  }

  lemma EmitStep(ks: seq<seq<byte>>, t: Tally, i: nat, emitted: seq<bool>)
    requires i < |ks| && Tallies(t, ks) && |emitted| == |t.keys| && EmittedBefore(ks, t, i, emitted)
    ensures EmittedBefore(ks, t, i + 1, EmitNext(ks, t, i, emitted))
    ensures EmitFrom(ks, t, i, emitted) == FieldAt(ks, i) + EmitFrom(ks, t, i + 1, EmitNext(ks, t, i, emitted))
  {
    var x := ks[i];
    var k := FindKey(t.keys, x);
    FirstOccurrenceCount(ks, i);
    assert x in ks;
    assert k < |t.keys| && t.counts[k] == multiset(ks)[x];
    assert ks[..i + 1] == ks[..i] + [x];
    var emitted1 := EmitNext(ks, t, i, emitted);
    forall k' | 0 <= k' < |t.keys|
      ensures emitted1[k'] <==> t.counts[k'] > 1 && t.keys[k'] in ks[..i + 1]
    {
      if k' != k {
        assert t.keys[k'] != x;
      }
    }
  }

  lemma {:induction false} EmitFromFields(ks: seq<seq<byte>>, t: Tally, i: nat, emitted: seq<bool>)
    requires i <= |ks| && Tallies(t, ks) && |emitted| == |t.keys| && EmittedBefore(ks, t, i, emitted)
    ensures EmitFrom(ks, t, i, emitted) == Fields(ks, i)
    decreases |ks| - i
  {
    if i < |ks| {
      var emitted1 := EmitNext(ks, t, i, emitted);
      EmitStep(ks, t, i, emitted);
      EmitFromFields(ks, t, i + 1, emitted1);
      calc {
        EmitFrom(ks, t, i, emitted);
        FieldAt(ks, i) + EmitFrom(ks, t, i + 1, emitted1);
        FieldAt(ks, i) + Fields(ks, i + 1);
        Fields(ks, i);
      }
    }
  }

  /**
   * With every member counted, the fields written are one field per distinct
   * key, in order of first occurrence.
   */
  lemma GroupsAreFields(ks: seq<seq<byte>>, at: nat, alloc: Allocator)
    requires forall n :: alloc(KeyList(n, at)) && alloc(CountList(n, at))
    ensures Groups(ks, at, alloc) == Fields(ks, 0)
  {
    var p := TallyCounts(ks, at, alloc);
    assert ks[..p] == ks;
    var t := TallyOf(ks, at, alloc);
    assert EmittedBefore(ks, t, 0, seq(|t.keys|, _ => false));
    EmitFromFields(ks, t, 0, seq(|t.keys|, _ => false));
  }

  /** A field is an array exactly when its key repeats, and then holds every member with that key. */
  lemma {:induction false} FieldsShape(ks: seq<seq<byte>>, i: nat)
    requires i <= |ks|
    ensures forall g :: g in Fields(ks, i) ==>
              && (g.Array? <==> multiset(ks)[ks[g.Lead()]] > 1)
              && (g.Array? ==> g.members == SameKey(ks, ks[g.first]))
    decreases |ks| - i
  {
    if i < |ks| {
      FieldsShape(ks, i + 1);
      assert Fields(ks, i) == FieldAt(ks, i) + Fields(ks, i + 1);
    }
  }

  /** Fields come in the order of their keys' first occurrences. */
  lemma {:induction false} FieldsOrdered(ks: seq<seq<byte>>, i: nat)
    requires i <= |ks|
    ensures forall a, b :: 0 <= a < b < |Fields(ks, i)| ==> Fields(ks, i)[a].Lead() < Fields(ks, i)[b].Lead()
    decreases |ks| - i
  {
    if i < |ks| {
      FieldsOrdered(ks, i + 1);
      var gs := Fields(ks, i);
      var head, rest := FieldAt(ks, i), Fields(ks, i + 1);
      assert gs == head + rest;
      forall a, b | 0 <= a < b < |gs|
        ensures gs[a].Lead() < gs[b].Lead()
      {
        assert gs[b] == rest[b - |head|] && rest[b - |head|] in rest;
        if a >= |head| {
          assert gs[a] == rest[a - |head|];
        } else {
          assert gs[a] == head[0] && head[0].Lead() == i;
        }
      }
    }
  }

  /** Every first occurrence of a key from `i` on leads a field. */
  lemma {:induction false} FieldsCover(ks: seq<seq<byte>>, i: nat, j: nat)
    requires i <= j < |ks| && ks[j] !in ks[..j]
    ensures exists g :: g in Fields(ks, i) && g.Lead() == j
    decreases j - i
  {
    var gs := Fields(ks, i);
    assert gs == FieldAt(ks, i) + Fields(ks, i + 1);
    if j == i {
      assert gs[0].Lead() == i && gs[0] in gs;
    } else {
      FieldsCover(ks, i + 1, j);
      var g :| g in Fields(ks, i + 1) && g.Lead() == j;
      assert g in gs;
    }
  }

  /** Some member is the first with key `x`. */
  lemma FirstWith(ks: seq<seq<byte>>, x: seq<byte>) returns (j: nat)
    requires x in ks
    ensures j < |ks| && ks[j] == x && x !in ks[..j]
  {
    j := 0;
    while ks[j] != x
      invariant j < |ks| && x in ks[j..] && x !in ks[..j]
      decreases |ks| - j
    {
      assert ks[j..] == [ks[j]] + ks[j + 1..];
      assert ks[..j + 1] == ks[..j] + [ks[j]];
      j := j + 1;
    }
  }

  /** Every key of a member leads some field. */
  lemma EveryKeyHasField(ks: seq<seq<byte>>)
    ensures forall x :: x in ks ==> exists g :: g in Fields(ks, 0) && ks[g.Lead()] == x
  {
    forall x | x in ks
      ensures exists g :: g in Fields(ks, 0) && ks[g.Lead()] == x
    {
      var j := FirstWith(ks, x);
      FieldsCover(ks, 0, j);
    }
  }

  /** No two fields share a key. */
  lemma FieldKeysDistinct(ks: seq<seq<byte>>)
    ensures var gs := Fields(ks, 0);
            forall a, b :: 0 <= a < b < |gs| ==> ks[gs[a].Lead()] != ks[gs[b].Lead()]
  {
    FieldsOrdered(ks, 0);
    var gs := Fields(ks, 0);
    forall a, b | 0 <= a < b < |gs|
      ensures ks[gs[a].Lead()] != ks[gs[b].Lead()]
    {
      assert gs[a] in gs && gs[b] in gs;
      var la, lb := gs[a].Lead(), gs[b].Lead();
      assert la < lb;
      assert ks[..lb][la] == ks[la];
    }
  }

  /**
   * The object has exactly one field per distinct member key, led by the
   * key's first occurrence, in order of first occurrence; a key that occurs
   * more than once is written as an array of all its members, and a key that
   * occurs once as its lone member.
   */
  lemma OneFieldPerKey(ks: seq<seq<byte>>) returns (gs: seq<Group>)
    ensures gs == Fields(ks, 0)
    ensures forall g :: g in gs ==> g.Lead() < |ks| && ks[g.Lead()] !in ks[..g.Lead()]
    ensures forall x :: x in ks ==> exists g :: g in gs && ks[g.Lead()] == x
    ensures forall a, b :: 0 <= a < b < |gs| ==> gs[a].Lead() < gs[b].Lead() && ks[gs[a].Lead()] != ks[gs[b].Lead()]
    ensures forall g :: g in gs ==> (g.Array? <==> multiset(ks)[ks[g.Lead()]] > 1)
    ensures forall g, j :: g in gs && g.Array? ==> (j in g.members <==> 0 <= j < |ks| && ks[j] == ks[g.Lead()])
    ensures forall g, a, b :: g in gs && g.Array? && 0 <= a < b < |g.members| ==> g.members[a] < g.members[b]
  {
    gs := Fields(ks, 0);
    FieldsShape(ks, 0);
    forall g | g in gs && g.Array?
      ensures forall j :: j in g.members <==> 0 <= j < |ks| && ks[j] == ks[g.Lead()]
      ensures forall a, b :: 0 <= a < b < |g.members| ==> g.members[a] < g.members[b]
    {
      SameKeyFromMembers(ks, ks[g.Lead()], 0);
    }
    FieldsOrdered(ks, 0);
    EveryKeyHasField(ks);
    FieldKeysDistinct(ks);
  }

  // ---------------------------------------------------------------------------
  // Objects: the bytes written
  // ---------------------------------------------------------------------------

  /** The members listed for a range, as `Members` makes them. */
  predicate MembersOf(es: seq<Event>, start: nat, end: nat, depth: int, ms: seq<Member>)
    requires end <= |es|
  {
    forall k :: 0 <= k < |ms| ==> start <= ms[k].idx && MemberAt(es, end, depth, ms[k])
  }

  /** Fields that refer to members of `ms` only. */
  predicate GroupsWithin(gs: seq<Group>, n: nat)
  {
    forall g :: g in gs ==> g.Lead() < n && (g.Array? ==> forall j :: j in g.members ==> j < n)
  }

  /**
   * What `write_object_range` writes for events `start` to `end` whose
   * members sit at depth `depth + 1`; the driver calls it on the whole table
   * with depth -1.
   */
  function ObjectJson(arena: seq<byte>, es: seq<Event>, start: nat, end: nat, depth: int, alloc: Allocator): seq<byte>
    requires EventsOk(arena, es) && start <= end <= |es|
    decreases end - start, 3
  {
    var ms := Members(arena, es, start, end, depth, alloc);
    var gs := Groups(KeyTexts(arena, ms), start, alloc);
    [LBRACE] + FieldsJson(arena, es, start, end, depth, ms, gs, true, alloc) + [RBRACE]
  }

  /** The fields, each after a comma but the first. */
  function FieldsJson(arena: seq<byte>, es: seq<Event>, start: nat, end: nat, depth: int,
                      ms: seq<Member>, gs: seq<Group>, first: bool, alloc: Allocator): seq<byte>
    requires EventsOk(arena, es) && start <= end <= |es|
    requires MembersOf(es, start, end, depth, ms) && GroupsWithin(gs, |ms|)
    decreases end - start, 2, |gs|
  {
    if gs == [] then []
    else
      (if first then [] else [COMMA]) + FieldJson(arena, es, start, end, depth, ms, gs[0], alloc)
        + FieldsJson(arena, es, start, end, depth, ms, gs[1..], false, alloc)
  }

  /** One field: the key of its lead member, a colon, then the value or the array of values. */
  function FieldJson(arena: seq<byte>, es: seq<Event>, start: nat, end: nat, depth: int,
                     ms: seq<Member>, g: Group, alloc: Allocator): seq<byte>
    requires EventsOk(arena, es) && start <= end <= |es|
    requires MembersOf(es, start, end, depth, ms) && GroupsWithin([g], |ms|)
    decreases end - start, 1
  {
    assert g in [g];
    var m := ms[g.Lead()];
    assert SpanOk(arena, es[m.idx].key.span);
    JsonString(Text(arena, m.key)) + [COLON]
      + match g
        case Single(i) => MemberJson(arena, es, start, end, depth, m, alloc)
        case Array(_, js) => [LBRACKET] + ItemsJson(arena, es, start, end, depth, ms, js, true, alloc) + [RBRACKET]
  }

  /** The values of an array, each after a comma but the first. */
  function ItemsJson(arena: seq<byte>, es: seq<Event>, start: nat, end: nat, depth: int,
                     ms: seq<Member>, js: seq<nat>, first: bool, alloc: Allocator): seq<byte>
    requires EventsOk(arena, es) && start <= end <= |es|
    requires MembersOf(es, start, end, depth, ms) && forall j :: j in js ==> j < |ms|
    decreases end - start, 1, |js|
  {
    if js == [] then []
    else
      assert js[0] in js && forall j :: j in js[1..] ==> j in js;
      (if first then [] else [COMMA]) + MemberJson(arena, es, start, end, depth, ms[js[0]], alloc)
        + ItemsJson(arena, es, start, end, depth, ms, js[1..], false, alloc)
  }

  /** A member's value: its string, or the object its section holds. */
  function MemberJson(arena: seq<byte>, es: seq<Event>, start: nat, end: nat, depth: int, m: Member, alloc: Allocator): seq<byte>
    requires EventsOk(arena, es) && start <= end <= |es|
    requires start <= m.idx && MemberAt(es, end, depth, m)
    decreases end - start, 0
  {
    if m.kind == KeyValue then JsonString(Text(arena, es[m.idx].value))
    else ObjectJson(arena, es, m.idx + 1, m.endIdx, depth + 1, alloc)
  }

  /** Every byte is printable in the sense of `Printable`. */
  predicate AllPrintable(t: seq<byte>)
  {
    forall i :: 0 <= i < |t| ==> Printable(t[i])
  }

  lemma PrintableConcat(a: seq<byte>, b: seq<byte>)
    requires AllPrintable(a) && AllPrintable(b)
    ensures AllPrintable(a + b)
  {
    assert forall i :: |a| <= i < |a + b| ==> (a + b)[i] == b[i - |a|];
  }

  lemma JsonStringAllPrintable(s: seq<byte>)
    ensures AllPrintable(JsonString(s))
  {
    JsonStringPrintable(s);
  }

  /**
   * The submission metadata file holds no control byte and no byte above
   * 0x7F, whatever bytes the keys and values hold.
   */
  lemma {:induction false} ObjectJsonPrintable(arena: seq<byte>, es: seq<Event>, start: nat, end: nat, depth: int, alloc: Allocator)
    requires EventsOk(arena, es) && start <= end <= |es|
    ensures AllPrintable(ObjectJson(arena, es, start, end, depth, alloc))
    decreases end - start, 3
  {
    var ms := Members(arena, es, start, end, depth, alloc);
    var gs := Groups(KeyTexts(arena, ms), start, alloc);
    FieldsJsonPrintable(arena, es, start, end, depth, ms, gs, true, alloc);
    PrintableConcat([LBRACE], FieldsJson(arena, es, start, end, depth, ms, gs, true, alloc));
    PrintableConcat([LBRACE] + FieldsJson(arena, es, start, end, depth, ms, gs, true, alloc), [RBRACE]);
  }

  lemma {:induction false} FieldsJsonPrintable(arena: seq<byte>, es: seq<Event>, start: nat, end: nat, depth: int,
                                               ms: seq<Member>, gs: seq<Group>, first: bool, alloc: Allocator)
    requires EventsOk(arena, es) && start <= end <= |es|
    requires MembersOf(es, start, end, depth, ms) && GroupsWithin(gs, |ms|)
    ensures AllPrintable(FieldsJson(arena, es, start, end, depth, ms, gs, first, alloc))
    decreases end - start, 2, |gs|
  {
    if gs != [] {
      assert gs[0] in gs && forall g :: g in gs[1..] ==> g in gs;
      var sep: seq<byte> := if first then [] else [COMMA];
      var f := FieldJson(arena, es, start, end, depth, ms, gs[0], alloc);
      var rest := FieldsJson(arena, es, start, end, depth, ms, gs[1..], false, alloc);
      FieldJsonPrintable(arena, es, start, end, depth, ms, gs[0], alloc);
      FieldsJsonPrintable(arena, es, start, end, depth, ms, gs[1..], false, alloc);
      PrintableConcat(sep, f);
      PrintableConcat(sep + f, rest);
    }
  }

  lemma {:induction false} FieldJsonPrintable(arena: seq<byte>, es: seq<Event>, start: nat, end: nat, depth: int,
                                              ms: seq<Member>, g: Group, alloc: Allocator)
    requires EventsOk(arena, es) && start <= end <= |es|
    requires MembersOf(es, start, end, depth, ms) && GroupsWithin([g], |ms|)
    ensures AllPrintable(FieldJson(arena, es, start, end, depth, ms, g, alloc))
    decreases end - start, 1
  {
    assert g in [g];
    var m := ms[g.Lead()];
    assert SpanOk(arena, es[m.idx].key.span);
    var key := JsonString(Text(arena, m.key)) + [COLON];
    JsonStringAllPrintable(Text(arena, m.key));
    PrintableConcat(JsonString(Text(arena, m.key)), [COLON]);
    match g
    case Single(i) =>
      MemberJsonPrintable(arena, es, start, end, depth, m, alloc);
      PrintableConcat(key, MemberJson(arena, es, start, end, depth, m, alloc));
    case Array(_, js) =>
      var items := ItemsJson(arena, es, start, end, depth, ms, js, true, alloc);
      ItemsJsonPrintable(arena, es, start, end, depth, ms, js, true, alloc);
      PrintableConcat([LBRACKET], items);
      PrintableConcat([LBRACKET] + items, [RBRACKET]);
      PrintableConcat(key, [LBRACKET] + items + [RBRACKET]);
  }

  lemma {:induction false} ItemsJsonPrintable(arena: seq<byte>, es: seq<Event>, start: nat, end: nat, depth: int,
                                              ms: seq<Member>, js: seq<nat>, first: bool, alloc: Allocator)
    requires EventsOk(arena, es) && start <= end <= |es|
    requires MembersOf(es, start, end, depth, ms) && forall j :: j in js ==> j < |ms|
    ensures AllPrintable(ItemsJson(arena, es, start, end, depth, ms, js, first, alloc))
    decreases end - start, 1, |js|
  {
    if js != [] {
      assert js[0] in js && forall j :: j in js[1..] ==> j in js;
      var sep: seq<byte> := if first then [] else [COMMA];
      var v := MemberJson(arena, es, start, end, depth, ms[js[0]], alloc);
      var rest := ItemsJson(arena, es, start, end, depth, ms, js[1..], false, alloc);
      MemberJsonPrintable(arena, es, start, end, depth, ms[js[0]], alloc);
      ItemsJsonPrintable(arena, es, start, end, depth, ms, js[1..], false, alloc);
      PrintableConcat(sep, v);
      PrintableConcat(sep + v, rest);
    }
  }

  lemma {:induction false} MemberJsonPrintable(arena: seq<byte>, es: seq<Event>, start: nat, end: nat, depth: int,
                                               m: Member, alloc: Allocator)
    requires EventsOk(arena, es) && start <= end <= |es|
    requires start <= m.idx && MemberAt(es, end, depth, m)
    ensures AllPrintable(MemberJson(arena, es, start, end, depth, m, alloc))
    decreases end - start, 0
  {
    if m.kind == KeyValue {
      JsonStringAllPrintable(Text(arena, es[m.idx].value));
    } else {
      SectionMemberJson(arena, es, start, end, depth, m, alloc);
      ObjectJsonPrintable(arena, es, m.idx + 1, m.endIdx, depth + 1, alloc);
    }
  }

  // ---------------------------------------------------------------------------
  // `write_object_range`, loop by loop
  // ---------------------------------------------------------------------------

  /** The first loop: collect the members, skipping each section's contents. */
  method CollectMembers(arena: seq<byte>, es: seq<Event>, start: nat, end: nat, depth: int, alloc: Allocator)
    returns (ms: seq<Member>)
    requires EventsOk(arena, es) && end <= |es|
    ensures ms == Members(arena, es, start, end, depth, alloc)
  {
    ms := [];
    var i := start;
    while i < end
      invariant start <= i
      invariant forall k :: 0 <= k < |ms| ==> start <= ms[k].idx && MemberAt(es, end, depth, ms[k])
      invariant MembersFrom(arena, es, start, end, depth, i, ms, alloc) == Members(arena, es, start, end, depth, alloc)
      decreases end - i
    {
      if es[i].depth != depth + 1 {
        i := i + 1;
        continue;
      }
      if es[i].kind == KeyValue {
        if !alloc(MemberList(|ms| + 1, start)) {
          break;
        }
        ms := ms + [Member(es[i].key.span, KeyValue, i, i)];
      } else if es[i].kind == SectionStart {
        var e := FindSectionEnd(es, end, i);
        if !alloc(MemberList(|ms| + 1, start)) {
          break;
        }
        ms := ms + [Member(es[i].key.span, SectionStart, i, e)];
        i := e;
      }
      i := i + 1;
    }
  }

  /** The lookup of a key among the distinct keys, by `key_eq`. */
  method FindKeyIndex(keys: seq<seq<byte>>, x: seq<byte>) returns (k: nat)
    ensures k == FindKey(keys, x)
  {
    k := 0;
    while k < |keys|
      invariant k <= |keys|
      invariant forall j :: 0 <= j < k ==> keys[j] != x
    {
      if keys[k] == x {
        return;
      }
      k := k + 1;
    }
  }

  /** One turn of the second loop: a known key is counted, a new one added, or the loop stops. */
  lemma TallyTurn(ks: seq<seq<byte>>, i: nat, keys: seq<seq<byte>>, counts: seq<nat>, at: nat, alloc: Allocator)
    requires i < |ks| && |keys| == |counts|
    ensures var k := FindKey(keys, ks[i]);
            k < |keys| ==> TallyFrom(ks, i, Tally(keys, counts), at, alloc)
                           == TallyFrom(ks, i + 1, Tally(keys, counts[k := counts[k] + 1]), at, alloc)
    ensures var k := FindKey(keys, ks[i]);
            var grown := alloc(KeyList(|keys| + 1, at)) && alloc(CountList(|keys| + 1, at));
            k == |keys| ==> TallyFrom(ks, i, Tally(keys, counts), at, alloc)
                            == if grown then TallyFrom(ks, i + 1, Tally(keys + [ks[i]], counts + [1]), at, alloc)
                               else Tally(keys, counts)
  {
  }

  /** The second loop: count each distinct key, growing both tables by one on a new key. */
  method CountKeys(ks: seq<seq<byte>>, at: nat, alloc: Allocator) returns (t: Tally)
    ensures t == TallyOf(ks, at, alloc)
  {
    var keys: seq<seq<byte>> := [];
    var counts: seq<nat> := [];
    var i := 0;
    while i < |ks|
      invariant i <= |ks| && |keys| == |counts|
      invariant TallyFrom(ks, i, Tally(keys, counts), at, alloc) == TallyOf(ks, at, alloc)
    {
      var k := FindKeyIndex(keys, ks[i]);
      TallyTurn(ks, i, keys, counts, at, alloc);
      if k < |keys| {
        counts := counts[k := counts[k] + 1];
      } else {
        if !alloc(KeyList(|keys| + 1, at)) || !alloc(CountList(|keys| + 1, at)) {
          break;
        }
        keys := keys + [ks[i]];
        counts := counts + [1];
      }
      i := i + 1;
    }
    t := Tally(keys, counts);
  }

  /** A member's value: its string, or, for a section, the object written for its contents. */
  method WriteMember(arena: seq<byte>, es: seq<Event>, start: nat, end: nat, depth: int, m: Member, alloc: Allocator)
    returns (out: seq<byte>)
    requires EventsOk(arena, es) && start <= end <= |es|
    requires start <= m.idx && MemberAt(es, end, depth, m)
    ensures out == MemberJson(arena, es, start, end, depth, m, alloc)
    decreases end - start, 0, 1
  {
    if m.kind == KeyValue {
      out := WriteValueMember(arena, es, start, end, depth, m, alloc);
    } else {
      out := WriteSectionMember(arena, es, start, end, depth, m, alloc);
    }
  }

  /** A key-value member's value: `write_json_string` on the value. */
  method WriteValueMember(arena: seq<byte>, es: seq<Event>, start: nat, end: nat, depth: int, m: Member, alloc: Allocator)
    returns (out: seq<byte>)
    requires EventsOk(arena, es) && start <= end <= |es|
    requires start <= m.idx && MemberAt(es, end, depth, m) && m.kind == KeyValue
    ensures out == MemberJson(arena, es, start, end, depth, m, alloc)
  {
    ValueMemberJson(arena, es, start, end, depth, m, alloc);
    out := WriteJsonString(Text(arena, es[m.idx].value));
  }

  /** A section member's value: `write_object_range` on the events inside the section. */
  method WriteSectionMember(arena: seq<byte>, es: seq<Event>, start: nat, end: nat, depth: int, m: Member, alloc: Allocator)
    returns (out: seq<byte>)
    requires EventsOk(arena, es) && start <= end <= |es|
    requires start <= m.idx && MemberAt(es, end, depth, m) && m.kind != KeyValue
    ensures out == MemberJson(arena, es, start, end, depth, m, alloc)
    decreases end - start, 0, 0
  {
    SectionMemberJson(arena, es, start, end, depth, m, alloc);
    out := WriteObjectRange(arena, es, m.idx + 1, m.endIdx, depth + 1, alloc);
  }

  /** A section member's value is the object of the events its section encloses. */
  lemma SectionMemberJson(arena: seq<byte>, es: seq<Event>, start: nat, end: nat, depth: int, m: Member, alloc: Allocator)
    requires EventsOk(arena, es) && start <= end <= |es|
    requires start <= m.idx && MemberAt(es, end, depth, m) && m.kind != KeyValue
    ensures m.idx + 1 <= m.endIdx <= end
    ensures MemberJson(arena, es, start, end, depth, m, alloc) == ObjectJson(arena, es, m.idx + 1, m.endIdx, depth + 1, alloc)
  {
  }

  /** A key-value member's value is its string. */
  lemma ValueMemberJson(arena: seq<byte>, es: seq<Event>, start: nat, end: nat, depth: int, m: Member, alloc: Allocator)
    requires EventsOk(arena, es) && start <= end <= |es|
    requires start <= m.idx && MemberAt(es, end, depth, m) && m.kind == KeyValue
    ensures SpanOk(arena, es[m.idx].value)
    ensures MemberJson(arena, es, start, end, depth, m, alloc) == JsonString(Text(arena, es[m.idx].value))
  {
  }

  /** A member with key `x` opens the values from `j` on. */
  lemma ItemsStep(arena: seq<byte>, es: seq<Event>, start: nat, end: nat, depth: int, ms: seq<Member>,
                  x: seq<byte>, j: nat, first: bool, alloc: Allocator)
    requires EventsOk(arena, es) && start <= end <= |es|
    requires MembersOf(es, start, end, depth, ms) && j < |ms|
    requires forall k :: 0 <= k < |ms| ==> SpanOk(arena, ms[k].key)
    requires KeyTexts(arena, ms)[j] == x
    ensures var ks := KeyTexts(arena, ms);
            ItemsJson(arena, es, start, end, depth, ms, SameKeyFrom(ks, x, j), first, alloc)
            == (if first then [] else [COMMA]) + MemberJson(arena, es, start, end, depth, ms[j], alloc)
               + ItemsJson(arena, es, start, end, depth, ms, SameKeyFrom(ks, x, j + 1), false, alloc)
  {
    var ks := KeyTexts(arena, ms);
    var js := SameKeyFrom(ks, x, j);
    assert js == [j] + SameKeyFrom(ks, x, j + 1);
    assert js[0] == j && js[1..] == SameKeyFrom(ks, x, j + 1);
  }

  /**
   * The inner loop's progress at member `j`: `out`, followed by the values of
   * the members from `j` on whose key is `x`, makes `target`.
   */
  predicate ItemsWritten(arena: seq<byte>, es: seq<Event>, start: nat, end: nat, depth: int, ms: seq<Member>,
                         x: seq<byte>, j: nat, first: bool, out: seq<byte>, target: seq<byte>, alloc: Allocator)
  {
    && EventsOk(arena, es) && start <= end <= |es|
    && MembersOf(es, start, end, depth, ms) && j <= |ms|
    && (forall k :: 0 <= k < |ms| ==> SpanOk(arena, ms[k].key))
    && out + ItemsJson(arena, es, start, end, depth, ms, SameKeyFrom(KeyTexts(arena, ms), x, j), first, alloc) == target
  }

  /** A member with another key adds nothing to the array. */
  lemma ItemsSkip(arena: seq<byte>, es: seq<Event>, start: nat, end: nat, depth: int, ms: seq<Member>,
                  x: seq<byte>, j: nat, first: bool, out: seq<byte>, target: seq<byte>, alloc: Allocator)
    requires ItemsWritten(arena, es, start, end, depth, ms, x, j, first, out, target, alloc) && j < |ms|
    requires Text(arena, ms[j].key) != x
    ensures ItemsWritten(arena, es, start, end, depth, ms, x, j + 1, first, out, target, alloc)
  {
    var ks := KeyTexts(arena, ms);
    assert ks[j] != x;
    assert SameKeyFrom(ks, x, j) == SameKeyFrom(ks, x, j + 1);
  }

  /** A member with key `x`: its value, after a comma but the first, joins the bytes written. */
  lemma ItemsTurn(arena: seq<byte>, es: seq<Event>, start: nat, end: nat, depth: int, ms: seq<Member>,
                  x: seq<byte>, j: nat, first: bool, out: seq<byte>, v: seq<byte>, target: seq<byte>,
                  alloc: Allocator)
    requires ItemsWritten(arena, es, start, end, depth, ms, x, j, first, out, target, alloc) && j < |ms|
    requires Text(arena, ms[j].key) == x && v == MemberJson(arena, es, start, end, depth, ms[j], alloc)
    ensures ItemsWritten(arena, es, start, end, depth, ms, x, j + 1, false,
                         out + (if first then [] else [COMMA]) + v, target, alloc)
  {
    var ks := KeyTexts(arena, ms);
    ItemsStep(arena, es, start, end, depth, ms, x, j, first, alloc);
    var sep: seq<byte> := if first then [] else [COMMA];
    var rest := ItemsJson(arena, es, start, end, depth, ms, SameKeyFrom(ks, x, j + 1), false, alloc);
    AppendAssoc(out + sep, v, rest);
    AppendAssoc(out, sep, v + rest);
    AppendAssoc(sep, v, rest);
  }

  /** Before the first member, nothing but the bracket is written. */
  lemma ItemsBegin(arena: seq<byte>, es: seq<Event>, start: nat, end: nat, depth: int, ms: seq<Member>,
                   x: seq<byte>, alloc: Allocator)
    requires EventsOk(arena, es) && start <= end <= |es|
    requires MembersOf(es, start, end, depth, ms)
    requires forall k :: 0 <= k < |ms| ==> SpanOk(arena, ms[k].key)
    ensures ItemsWritten(arena, es, start, end, depth, ms, x, 0, true, [LBRACKET],
                         [LBRACKET] + ItemsJson(arena, es, start, end, depth, ms, SameKey(KeyTexts(arena, ms), x), true, alloc), alloc)
  {
  }

  /** Past the last member, the bytes written are the values of all members with key `x`. */
  lemma ItemsDone(arena: seq<byte>, es: seq<Event>, start: nat, end: nat, depth: int, ms: seq<Member>,
                  x: seq<byte>, first: bool, out: seq<byte>, alloc: Allocator)
    requires EventsOk(arena, es) && start <= end <= |es|
    requires MembersOf(es, start, end, depth, ms)
    requires forall k :: 0 <= k < |ms| ==> SpanOk(arena, ms[k].key)
    requires ItemsWritten(arena, es, start, end, depth, ms, x, |ms|, first, out,
                          [LBRACKET] + ItemsJson(arena, es, start, end, depth, ms, SameKey(KeyTexts(arena, ms), x), true, alloc), alloc)
    ensures out + [RBRACKET] == [LBRACKET] + ItemsJson(arena, es, start, end, depth, ms, SameKey(KeyTexts(arena, ms), x), true, alloc) + [RBRACKET]
  {
    assert SameKeyFrom(KeyTexts(arena, ms), x, |ms|) == [];
  }

  /** One turn of the inner loop: member `j`'s value joins the array when its key is member `i`'s. */
  method WriteItem(arena: seq<byte>, es: seq<Event>, start: nat, end: nat, depth: int, ms: seq<Member>, i: nat, j: nat,
                   ghost x: seq<byte>, first: bool, out: seq<byte>, ghost target: seq<byte>, alloc: Allocator)
    returns (out': seq<byte>, first': bool)
    requires ItemsWritten(arena, es, start, end, depth, ms, x, j, first, out, target, alloc)
    requires i < |ms| && j < |ms| && x == KeyTexts(arena, ms)[i]
    ensures ItemsWritten(arena, es, start, end, depth, ms, x, j + 1, first', out', target, alloc)
    decreases end - start, 1, 0
  {
    if !KeyEq(arena, ms[j].key, ms[i].key) {
      ItemsSkip(arena, es, start, end, depth, ms, x, j, first, out, target, alloc);
      out', first' := out, first;
    } else {
      var v := WriteMember(arena, es, start, end, depth, ms[j], alloc);
      ItemsTurn(arena, es, start, end, depth, ms, x, j, first, out, v, target, alloc);
      out', first' := out + (if first then [] else [COMMA]) + v, false;
    }
  }

  /** The inner loop for a repeated key: every member whose key equals member `i`'s, in brackets. */
  method WriteArray(arena: seq<byte>, es: seq<Event>, start: nat, end: nat, depth: int, ms: seq<Member>, i: nat,
                    alloc: Allocator)
    returns (out: seq<byte>)
    requires EventsOk(arena, es) && start <= end <= |es|
    requires MembersOf(es, start, end, depth, ms) && i < |ms|
    requires forall k :: 0 <= k < |ms| ==> SpanOk(arena, ms[k].key)
    ensures var ks := KeyTexts(arena, ms);
            out == [LBRACKET] + ItemsJson(arena, es, start, end, depth, ms, SameKey(ks, ks[i]), true, alloc) + [RBRACKET]
    decreases end - start, 1, 1
  {
    ghost var ks := KeyTexts(arena, ms);
    ghost var x := ks[i];
    ghost var target := [LBRACKET] + ItemsJson(arena, es, start, end, depth, ms, SameKey(ks, x), true, alloc);
    out := [LBRACKET];
    ItemsBegin(arena, es, start, end, depth, ms, x, alloc);
    var firstArr := true;
    var j := 0;
    while j < |ms|
      invariant j <= |ms|
      invariant ItemsWritten(arena, es, start, end, depth, ms, x, j, firstArr, out, target, alloc)
    {
      out, firstArr := WriteItem(arena, es, start, end, depth, ms, i, j, x, firstArr, out, target, alloc);
      j := j + 1;
    }
    ItemsDone(arena, es, start, end, depth, ms, x, firstArr, out, alloc);
    out := out + [RBRACKET];
  }

  /** One field: the lead member's key, a colon, and its value or the array of its key's values. */
  method WriteField(arena: seq<byte>, es: seq<Event>, start: nat, end: nat, depth: int, ms: seq<Member>, i: nat,
                    repeated: bool, alloc: Allocator)
    returns (out: seq<byte>)
    requires EventsOk(arena, es) && start <= end <= |es|
    requires MembersOf(es, start, end, depth, ms) && i < |ms|
    requires forall k :: 0 <= k < |ms| ==> SpanOk(arena, ms[k].key)
    ensures var ks := KeyTexts(arena, ms);
            var g := if repeated then Array(i, SameKey(ks, ks[i])) else Single(i);
            GroupsWithin([g], |ms|) && out == FieldJson(arena, es, start, end, depth, ms, g, alloc)
    decreases end - start, 2, 0
  {
    ghost var ks := KeyTexts(arena, ms);
    out := WriteJsonString(Text(arena, ms[i].key));
    out := out + [COLON];
    var value;
    if repeated {
      value := WriteArray(arena, es, start, end, depth, ms, i, alloc);
    } else {
      value := WriteMember(arena, es, start, end, depth, ms[i], alloc);
    }
    out := out + value;
  }

  /** A field opens the fields that follow it. */
  lemma FieldsStep(arena: seq<byte>, es: seq<Event>, start: nat, end: nat, depth: int,
                   ms: seq<Member>, g: Group, gs: seq<Group>, first: bool, alloc: Allocator)
    requires EventsOk(arena, es) && start <= end <= |es|
    requires MembersOf(es, start, end, depth, ms) && GroupsWithin([g] + gs, |ms|)
    ensures GroupsWithin([g], |ms|) && GroupsWithin(gs, |ms|)
    ensures FieldsJson(arena, es, start, end, depth, ms, [g] + gs, first, alloc)
            == (if first then [] else [COMMA]) + FieldJson(arena, es, start, end, depth, ms, g, alloc)
               + FieldsJson(arena, es, start, end, depth, ms, gs, false, alloc)
  {
    assert ([g] + gs)[0] == g && ([g] + gs)[1..] == gs;
    assert forall h :: h in [g] ==> h in [g] + gs;
    assert forall h :: h in gs ==> h in [g] + gs;
  }

  /**
   * The emission loop's progress at member `i`: `out`, followed by the fields
   * the members from `i` on still write, makes `target`.
   */
  predicate FieldsWritten(arena: seq<byte>, es: seq<Event>, start: nat, end: nat, depth: int, ms: seq<Member>,
                          t: Tally, i: nat, emitted: seq<bool>, first: bool, out: seq<byte>, target: seq<byte>,
                          alloc: Allocator)
  {
    && EventsOk(arena, es) && start <= end <= |es|
    && MembersOf(es, start, end, depth, ms) && i <= |ms|
    && (forall k :: 0 <= k < |ms| ==> SpanOk(arena, ms[k].key))
    && |t.keys| == |t.counts| == |emitted|
    && out + FieldsJson(arena, es, start, end, depth, ms, EmitFrom(KeyTexts(arena, ms), t, i, emitted), first, alloc) == target
  }

  /** A member whose key is missing from the table, or whose array is written already, writes nothing. */
  lemma FieldsSkip(arena: seq<byte>, es: seq<Event>, start: nat, end: nat, depth: int, ms: seq<Member>,
                   t: Tally, i: nat, emitted: seq<bool>, first: bool, out: seq<byte>, target: seq<byte>,
                   k: nat, alloc: Allocator)
    requires FieldsWritten(arena, es, start, end, depth, ms, t, i, emitted, first, out, target, alloc) && i < |ms|
    requires k == FindKey(t.keys, KeyTexts(arena, ms)[i]) && (k >= |t.keys| || (t.counts[k] > 1 && emitted[k]))
    ensures FieldsWritten(arena, es, start, end, depth, ms, t, i + 1, emitted, first, out, target, alloc)
  {
    var ks := KeyTexts(arena, ms);
    assert EmitFrom(ks, t, i, emitted) == EmitFrom(ks, t, i + 1, emitted);
  }

  /** A member that leads a field: the field, after a comma but the first, joins the bytes written. */
  lemma FieldsTurn(arena: seq<byte>, es: seq<Event>, start: nat, end: nat, depth: int, ms: seq<Member>,
                   t: Tally, i: nat, emitted: seq<bool>, first: bool, out: seq<byte>, target: seq<byte>,
                   k: nat, f: seq<byte>, alloc: Allocator)
    requires FieldsWritten(arena, es, start, end, depth, ms, t, i, emitted, first, out, target, alloc) && i < |ms|
    requires k == FindKey(t.keys, KeyTexts(arena, ms)[i]) && k < |t.keys| && !(t.counts[k] > 1 && emitted[k])
    requires var ks := KeyTexts(arena, ms);
             var g := if t.counts[k] > 1 then Array(i, SameKey(ks, ks[i])) else Single(i);
             GroupsWithin([g], |ms|) && f == FieldJson(arena, es, start, end, depth, ms, g, alloc)
    ensures FieldsWritten(arena, es, start, end, depth, ms, t, i + 1, if t.counts[k] > 1 then emitted[k := true] else emitted,
                          false, out + (if first then [] else [COMMA]) + f, target, alloc)
  {
    var ks := KeyTexts(arena, ms);
    var emitted1 := if t.counts[k] > 1 then emitted[k := true] else emitted;
    var g := if t.counts[k] > 1 then Array(i, SameKey(ks, ks[i])) else Single(i);
    var gs1 := EmitFrom(ks, t, i + 1, emitted1);
    assert EmitFrom(ks, t, i, emitted) == [g] + gs1;
    FieldsStep(arena, es, start, end, depth, ms, g, gs1, first, alloc);
    var sep: seq<byte> := if first then [] else [COMMA];
    var rest := FieldsJson(arena, es, start, end, depth, ms, gs1, false, alloc);
    AppendAssoc(out + sep, f, rest);
    AppendAssoc(out, sep, f + rest);
    AppendAssoc(sep, f, rest);
  }

  /** Before the first member, the fields still to write are all of them. */
  lemma FieldsBegin(arena: seq<byte>, es: seq<Event>, start: nat, end: nat, depth: int, ms: seq<Member>,
                    t: Tally, alloc: Allocator)
    requires EventsOk(arena, es) && start <= end <= |es|
    requires MembersOf(es, start, end, depth, ms)
    requires forall k :: 0 <= k < |ms| ==> SpanOk(arena, ms[k].key)
    requires t == TallyOf(KeyTexts(arena, ms), start, alloc)
    ensures FieldsWritten(arena, es, start, end, depth, ms, t, 0, seq(|t.keys|, _ => false), true, [LBRACE],
                          [LBRACE] + FieldsJson(arena, es, start, end, depth, ms, Groups(KeyTexts(arena, ms), start, alloc), true, alloc),
                          alloc)
  {
  }

  /** Past the last member, the bytes written are the whole object but its closing brace. */
  lemma FieldsDone(arena: seq<byte>, es: seq<Event>, start: nat, end: nat, depth: int, ms: seq<Member>,
                   t: Tally, emitted: seq<bool>, first: bool, out: seq<byte>, alloc: Allocator)
    requires EventsOk(arena, es) && start <= end <= |es|
    requires ms == Members(arena, es, start, end, depth, alloc)
    requires |t.keys| == |t.counts| == |emitted|
    requires MembersOf(es, start, end, depth, ms) && forall k :: 0 <= k < |ms| ==> SpanOk(arena, ms[k].key)
    requires FieldsWritten(arena, es, start, end, depth, ms, t, |ms|, emitted, first, out,
                           [LBRACE] + FieldsJson(arena, es, start, end, depth, ms, Groups(KeyTexts(arena, ms), start, alloc), true, alloc),
                           alloc)
    ensures out + [RBRACE] == ObjectJson(arena, es, start, end, depth, alloc)
  {
    assert EmitFrom(KeyTexts(arena, ms), t, |ms|, emitted) == [];
  }

  /**
   * `write_object_range`: the members of the range, then their distinct keys
   * and counts, then one field per member whose key is new or occurs once.
   */
  method WriteObjectRange(arena: seq<byte>, es: seq<Event>, start: nat, end: nat, depth: int, alloc: Allocator)
    returns (out: seq<byte>)
    requires EventsOk(arena, es) && start <= end <= |es|
    ensures out == ObjectJson(arena, es, start, end, depth, alloc)
    decreases end - start, 3, 0
  {
    var ms := CollectMembers(arena, es, start, end, depth, alloc);
    var ks := KeyTexts(arena, ms);
    var t := CountKeys(ks, start, alloc);
    var emitted := seq(|t.keys|, _ => false);
    ghost var target := [LBRACE] + FieldsJson(arena, es, start, end, depth, ms, Groups(ks, start, alloc), true, alloc);
    FieldsBegin(arena, es, start, end, depth, ms, t, alloc);
    out := [LBRACE];
    var first := true;
    var i := 0;
    while i < |ms|
      invariant i <= |ms| && |emitted| == |t.keys|
      invariant FieldsWritten(arena, es, start, end, depth, ms, t, i, emitted, first, out, target, alloc)
    {
      var k := FindKeyIndex(t.keys, ks[i]);
      if k >= |t.keys| || (t.counts[k] > 1 && emitted[k]) {
        FieldsSkip(arena, es, start, end, depth, ms, t, i, emitted, first, out, target, k, alloc);
        i := i + 1;
        continue;
      }
      var f := WriteField(arena, es, start, end, depth, ms, i, t.counts[k] > 1, alloc);
      FieldsTurn(arena, es, start, end, depth, ms, t, i, emitted, first, out, target, k, f, alloc);
      out := out + (if first then [] else [COMMA]) + f;
      first := false;
      if t.counts[k] > 1 {
        emitted := emitted[k := true];
      }
      i := i + 1;
    }
    FieldsDone(arena, es, start, end, depth, ms, t, emitted, first, out, alloc);
    out := out + [RBRACE];
  }
}
