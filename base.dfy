/*
 * Shared vocabulary of the EDGAR submission parser: bytes, spans into a byte
 * buffer, the status codes every result carries, and the allocator the C code
 * calls when a table or buffer has to grow.
 */
module Base {

  /** One byte of the input buffer (`uint8_t`). */
  type byte = b: int | 0 <= b < 256

  /** Concatenation is associative. */
  lemma AppendAssoc<T>(a: seq<T>, b: seq<T>, c: seq<T>)
    ensures (a + b) + c == a + (b + c)
  {
  }

  /** The bytes of an ASCII string literal such as a tag name. */
  function Lit(s: string): (r: seq<byte>)
    ensures |r| == |s|
  {
    seq(|s|, i requires 0 <= i < |s| => (s[i] as int) % 256)
  }

  const SP: byte := ' ' as int
  const TAB: byte := '\t' as int
  const LF: byte := '\n' as int
  const CR: byte := '\r' as int
  const LT: byte := '<' as int
  const GT: byte := '>' as int
  const SLASH: byte := '/' as int
  const COLON: byte := ':' as int
  const DASH: byte := '-' as int
  const QUOTE: byte := '"' as int
  const BACKSLASH: byte := '\\' as int
  const COMMA: byte := ',' as int

  /**
   * A non-owning view into a buffer: `byte_span { ptr, len }` with the pointer
   * replaced by an offset. The C code's `(byte_span){0}` (a null pointer of
   * length 0) is `Span(0, 0)`.
   */
  datatype Span = Span(start: nat, len: nat) {
    function End(): nat { start + len }
  }

  const EmptySpan := Span(0, 0)

  /** The bytes a span designates. */
  function SpanBytes(buf: seq<byte>, s: Span): seq<byte>
    requires s.End() <= |buf|
  {
    buf[s.start..s.End()]
  }

  datatype Option<T> = None | Some(value: T)

  /** `sgml_status`: OK, out of memory, or uuencoded output truncated. */
  datatype Status = Ok | OutOfMemory | Truncated

  /**
   * One call the C code makes to `malloc` or `realloc`: the call site and the
   * capacity it asks for. Where the same site can be reached again with the
   * same size, the request also says which call it is (the input offset the
   * scanner is at, how many calls came before, the event being handled, the
   * first event of the object being written), so that every call succeeds or
   * fails on its own.
   */
  datatype AllocRequest =
    | DocsInitial                          // parse_sgml's first result.docs
    | DocsTable(docs: nat, at: nat)        // docs_push at the `</DOCUMENT>` that ends at offset `at`
    | DecodedBuffer(bytes: nat, at: nat)   // the decoded payload of the `</TEXT>` at offset `at`
    | EventsTable(events: nat, call: nat)  // add_event, after `call` earlier add_event calls
    | StdEventsTable(events: nat)          // the standardizer's events_ensure
    | ArenaBlock(bytes: nat)               // the standardizer's arena_ensure
    | LowerKey(bytes: nat)                 // build_lower_key for the key
    | FallbackBuffer(bytes: nat)           // build_fallback_key
    | SlashedKey(bytes: nat)               // the buffer that puts a '/' back in front of a key
    | LowerValueKey(bytes: nat)            // build_lower_key again, to pick the value's extractor
    | InTurn(turn: nat, request: AllocRequest)  // a call the standardizer makes for input event `turn`
    | MemberList(members: nat, at: nat)  // the JSON writer's members of the object whose events start at `at`
    | KeyList(keys: nat, at: nat)          // the same object's list of distinct keys
    | CountList(keys: nat, at: nat)        // the same object's count of each distinct key

  /**
   * `malloc`/`realloc` as seen by the parser: whether a call succeeds. The
   * answer is a parameter of every operation, so out-of-memory paths are
   * modelled without fixing when memory runs out.
   */
  type Allocator = AllocRequest -> bool

  /** The allocator as the standardizer's loop sees it while it handles input event `turn`. */
  function InTurnOf(alloc: Allocator, turn: nat): Allocator
  {
    (r: AllocRequest) => alloc(InTurn(turn, r))
  }

  function Min(a: nat, b: nat): nat { if a <= b then a else b }

  /** `xs` is an initial part of `ys`. */
  predicate IsPrefix<T(==)>(xs: seq<T>, ys: seq<T>) {
    |xs| <= |ys| && xs == ys[..|xs|]
  }
}
