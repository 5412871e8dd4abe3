/*
 * The standardizer of src/standardize_submission_metadata.c: it copies the
 * header's events, renaming each key through a fixed table (or a lowercased,
 * dash-joined fallback) and shortening two kinds of value, into a table of
 * its own whose key and value bytes live in an append-only arena.
 *
 * The functions say what each event becomes (`NormKey`, `NormValue`,
 * `StdEvent`, `Standardize`); the class `StandardizedMetadata` and its
 * methods follow the C loops and are proved to build exactly that result.
 * Arena spans are offsets: the C code keeps raw pointers into an arena that
 * `realloc` may move, so its earlier spans can dangle; offsets cannot.
 */
module Standardize {
  import opened Base
  import opened Lines
  import opened Metadata

  // ---------------------------------------------------------------------------
  // ASCII
  // ---------------------------------------------------------------------------

  predicate IsUpper(c: byte) { 'A' as int <= c <= 'Z' as int }

  predicate IsDigit(c: byte) { '0' as int <= c <= '9' as int }

  /** `to_lower_ascii`: 'A'..'Z' become 'a'..'z'; every other byte is kept. */
  function ToLowerAscii(c: byte): (r: byte)
    ensures !IsUpper(r)
    ensures r == c <==> !IsUpper(c)
    ensures IsSpace(r) <==> IsSpace(c)
    ensures IsDigit(r) <==> IsDigit(c)
  {
    if IsUpper(c) then c + 32 else c
  }

  /** `build_lower_key` once its buffer exists: every byte lowercased. */
  function Lower(s: seq<byte>): (r: seq<byte>)
    ensures |r| == |s|
  {
    seq(|s|, i requires 0 <= i < |s| => ToLowerAscii(s[i]))
  }

  /** Lowercasing leaves no upper-case byte and changes nothing a second time. */
  lemma LowerIsLower(s: seq<byte>)
    ensures forall i :: 0 <= i < |s| ==> !IsUpper(Lower(s)[i])
    ensures Lower(Lower(s)) == Lower(s)
  {
    assert forall i :: 0 <= i < |s| ==> Lower(Lower(s))[i] == Lower(s)[i];
  }

  /**
   * `build_lower_key`: keys of up to 256 bytes are lowercased on the stack;
   * a longer one needs a buffer from `malloc`, and there is no lowercased
   * key when that fails (`granted` is false).
   */
  function Lowered(k: seq<byte>, granted: bool): Option<seq<byte>>
  {
    if |k| <= 256 || granted then Some(Lower(k)) else None
  }

  // ---------------------------------------------------------------------------
  // The key table
  // ---------------------------------------------------------------------------

  /** `regex_kind`: which extractor, if any, applies to the key's value. */
  datatype Rule = NoRule | SecActRule | SicRule

  /** `map_entry`: a lowercased header key, its standard name, and its value rule. */
  datatype MapEntry = MapEntry(from: string, to: string, rule: Rule)

  /** The number of entries of `MAP`. */
  const MapSize: nat := 63

  /** `MAP[i]`. */
  function Entry(i: nat): (e: MapEntry)
    requires i < MapSize
    ensures |e.to| > 0
  {
    if i < 32 then EntryLow(i) else EntryHigh(i)
  }

  /** The first half of `MAP`. */
  function EntryLow(i: nat): (e: MapEntry)
    requires 0 <= i < 32
    ensures |e.to| > 0
  {
    if i == 0 then MapEntry("paper", "paper", NoRule)
    else if i == 1 then MapEntry("accession number", "accession-number", NoRule)
    else if i == 2 then MapEntry("conformed submission type", "type", NoRule)
    else if i == 3 then MapEntry("public document count", "public-document-count", NoRule)
    else if i == 4 then MapEntry("public document_count", "public-document-count", NoRule)
    else if i == 5 then MapEntry("conformed period of report", "period", NoRule)
    else if i == 6 then MapEntry("filed as of date", "filing-date", NoRule)
    else if i == 7 then MapEntry("date as of change", "date-of-filing-date-change", NoRule)
    else if i == 8 then MapEntry("effectiveness date", "effectiveness-date", NoRule)
    else if i == 9 then MapEntry("filer", "filer", NoRule)
    else if i == 10 then MapEntry("company data", "company-data", NoRule)
    else if i == 11 then MapEntry("company conformed name", "conformed-name", NoRule)
    else if i == 12 then MapEntry("central index key", "cik", NoRule)
    else if i == 13 then MapEntry("state of incorporation", "state-of-incorporation", NoRule)
    else if i == 14 then MapEntry("fiscal year end", "fiscal-year-end", NoRule)
    else if i == 15 then MapEntry("filing values", "filing-values", NoRule)
    else if i == 16 then MapEntry("form type", "form-type", NoRule)
    else if i == 17 then MapEntry("sec act", "act", SecActRule)
    else if i == 18 then MapEntry("sec file number", "file-number", NoRule)
    else if i == 19 then MapEntry("film number", "film-number", NoRule)
    else if i == 20 then MapEntry("business address", "business-address", NoRule)
    else if i == 21 then MapEntry("street 1", "street1", NoRule)
    else if i == 22 then MapEntry("city", "city", NoRule)
    else if i == 23 then MapEntry("state", "state", NoRule)
    else if i == 24 then MapEntry("zip", "zip", NoRule)
    else if i == 25 then MapEntry("business phone", "phone", NoRule)
    else if i == 26 then MapEntry("mail address", "mail-address", NoRule)
    else if i == 27 then MapEntry("former company", "former-company", NoRule)
    else if i == 28 then MapEntry("former conformed name", "former-conformed-name", NoRule)
    else if i == 29 then MapEntry("date of name change", "date-changed", NoRule)
    else if i == 30 then MapEntry("sros", "sros", NoRule)
    else MapEntry("subject company", "subject-company", NoRule)
  }

  /** The second half of `MAP`. */
  function EntryHigh(i: nat): (e: MapEntry)
    requires 32 <= i < 63
    ensures |e.to| > 0
  {
    if i == 32 then MapEntry("standard industrial classification", "assigned-sic", SicRule)
    else if i == 33 then MapEntry("irs number", "irs-number", NoRule)
    else if i == 34 then MapEntry("filed by", "filed-by", NoRule)
    else if i == 35 then MapEntry("street 2", "street2", NoRule)
    else if i == 36 then MapEntry("items", "items", NoRule)
    else if i == 37 then MapEntry("group members", "group-members", NoRule)
    else if i == 38 then MapEntry("organization name", "organization-name", NoRule)
    else if i == 39 then MapEntry("recieved date", "recieved-date", NoRule)
    else if i == 40 then MapEntry("action date", "action-date", NoRule)
    else if i == 41 then MapEntry("non us state territory", "non-us-state-territory", NoRule)
    else if i == 42 then MapEntry("address is a non us location", "address-is-a-non-us-location", NoRule)
    else if i == 43 then MapEntry("ein", "ein", NoRule)
    else if i == 44 then MapEntry("class-contract-ticker-symbol", "class-contract-ticker-symbol", NoRule)
    else if i == 45 then MapEntry("class-contract-name", "class-contract-name", NoRule)
    else if i == 46 then MapEntry("class-contract-id", "class-contract-id", NoRule)
    else if i == 47 then MapEntry("sec-document", "sec-document", NoRule)
    else if i == 48 then MapEntry("sec-header", "sec-header", NoRule)
    else if i == 49 then MapEntry("acceptance-datetime", "acceptance-datetime", NoRule)
    else if i == 50 then MapEntry("series-and-classes-contracts-data", "series-and-classes-contracts-data", NoRule)
    else if i == 51 then MapEntry("existing-series-and-classes-contracts", "existing-series-and-classes-contracts", NoRule)
    else if i == 52 then MapEntry("merger-series-and-classes-contracts", "merger-series-and-classes-contracts", NoRule)
    else if i == 53 then MapEntry("new-series-and-classes-contracts", "new-series-and-classes-contracts", NoRule)
    else if i == 54 then MapEntry("series", "series", NoRule)
    else if i == 55 then MapEntry("owner-cik", "owner-cik", NoRule)
    else if i == 56 then MapEntry("series-id", "series-id", NoRule)
    else if i == 57 then MapEntry("series-name", "series-name", NoRule)
    else if i == 58 then MapEntry("acquiring-data", "acquiring-data", NoRule)
    else if i == 59 then MapEntry("target-data", "target-data", NoRule)
    else if i == 60 then MapEntry("new-classes-contracts", "new-classes-contracts", NoRule)
    else if i == 61 then MapEntry("new-series", "new-series", NoRule)
    else MapEntry("relationship", "relationship", NoRule)
  }

  /** The bytes of `key` are the characters of `s`: `strlen` and `memcmp` agree. */
  predicate Spells(key: seq<byte>, s: string)
  {
    |key| == |s| && forall i :: 0 <= i < |s| ==> key[i] == s[i] as int
  }

  /** `MAP` as a sequence. */
  function Map(): (t: seq<MapEntry>)
    ensures |t| == MapSize && forall i :: 0 <= i < MapSize ==> t[i] == Entry(i)
  {
    seq(MapSize, i requires 0 <= i < MapSize => Entry(i))
  }

  /** `lookup_map`: the first entry whose `from` is exactly `key`. */
  function LookupMap(key: seq<byte>): (r: Option<MapEntry>)
    ensures r.Some? ==> Spells(key, r.value.from)
  {
    if |key| == 0 then None else LookupIn(Map(), key, 0)
  }

  /** The first entry of `t` from index `i` on whose `from` is `key`. */
  function LookupIn(t: seq<MapEntry>, key: seq<byte>, i: nat): (r: Option<MapEntry>)
    requires i <= |t|
    ensures r.Some? ==> Spells(key, r.value.from)
    decreases |t| - i
  {
    if i == |t| then None
    else if Spells(key, t[i].from) then Some(t[i])
    else LookupIn(t, key, i + 1)
  }

  /** A key that no entry spells is not found; with a match, the first one is. */
  lemma {:induction false} LookupInFirst(t: seq<MapEntry>, key: seq<byte>, i: nat)
    requires i <= |t|
    ensures LookupIn(t, key, i).None? <==> forall j :: i <= j < |t| ==> !Spells(key, t[j].from)
    ensures LookupIn(t, key, i).Some? ==>
              exists j :: i <= j < |t| && LookupIn(t, key, i) == Some(t[j]) &&
                forall k :: i <= k < j ==> !Spells(key, t[k].from)
    decreases |t| - i
  {
    if i < |t| && !Spells(key, t[i].from) {
      LookupInFirst(t, key, i + 1);
    }
  }

  /** The entry at `j` is found when it spells `key` and no entry before it does. */
  lemma {:induction false} LookupInAt(t: seq<MapEntry>, key: seq<byte>, i: nat, j: nat)
    requires i <= j < |t| && Spells(key, t[j].from)
    requires forall k :: i <= k < j ==> !Spells(key, t[k].from)
    ensures LookupIn(t, key, i) == Some(t[j])
    decreases j - i
  {
    if i < j {
      LookupInAt(t, key, i + 1, j);
    }
  }

  /** `lookup_map` finds nothing exactly when the key is empty or no entry spells it; otherwise it finds the first that does. */
  lemma LookupMapFinds(key: seq<byte>)
    ensures LookupMap(key).None? <==> |key| == 0 || forall j :: 0 <= j < MapSize ==> !Spells(key, Entry(j).from)
    ensures LookupMap(key).Some? ==>
              exists j :: 0 <= j < MapSize && LookupMap(key) == Some(Entry(j)) &&
                forall k :: 0 <= k < j ==> !Spells(key, Entry(k).from)
  {
    if |key| > 0 {
      LookupInFirst(Map(), key, 0);
    }
  }

  /** Every name the table gives is non-empty. */
  lemma LookupMapNames(key: seq<byte>)
    ensures LookupMap(key).Some? ==> |LookupMap(key).value.to| > 0
  {
    LookupMapFinds(key);
  }

  // ---------------------------------------------------------------------------
  // The value extractors
  // ---------------------------------------------------------------------------

  /** The end of the run of whitespace starting at `j`. */
  function SkipSpaces(v: seq<byte>, j: nat): (r: nat)
    requires j <= |v|
    ensures j <= r <= |v| && (r < |v| ==> !IsSpace(v[r]))
    decreases |v| - j
  {
    if j < |v| && IsSpace(v[j]) then SkipSpaces(v, j + 1) else j
  }

  /** The end of the run of digits starting at `j`. */
  function SkipDigits(v: seq<byte>, j: nat): (r: nat)
    requires j <= |v|
    ensures j <= r <= |v| && (r < |v| ==> !IsDigit(v[r]))
    decreases |v| - j
  {
    if j < |v| && IsDigit(v[j]) then SkipDigits(v, j + 1) else j
  }

  const ActText := Lit("Act")

  /** Four digits at `i`, then whitespace, then `Act`. */
  predicate SecActAt(v: seq<byte>, i: nat)
  {
    i + 4 < |v| && IsDigit(v[i]) && IsDigit(v[i + 1]) && IsDigit(v[i + 2]) && IsDigit(v[i + 3])
    && IsSpace(v[i + 4])
    && var j := SkipSpaces(v, i + 4);
       j + 2 < |v| && v[j..j + 3] == ActText
  }

  /** `extract_sec_act`: the last two digits of the first year followed by `Act`. */
  function ExtractSecAct(v: seq<byte>): (r: Option<Span>)
    ensures r.Some? ==> r.value.len == 2 && r.value.End() <= |v|
  {
    if |v| < 7 then None
    else match FirstSecAct(v, 0)
      case Some(i) => Some(Span(i + 2, 2))
      case None => None
  }

  /** The loop of `extract_sec_act` from `i`: it tries every `i` with `i + 6 < |v|`. */
  function FirstSecAct(v: seq<byte>, i: nat): (r: Option<nat>)
    ensures r.Some? ==> SecActAt(v, r.value)
    decreases |v| - i
  {
    if i + 6 >= |v| then None
    else if SecActAt(v, i) then Some(i)
    else FirstSecAct(v, i + 1)
  }

  /** A match needs eight bytes, so the loop bound and the length test miss none. */
  lemma SecActRoom(v: seq<byte>, i: nat)
    requires SecActAt(v, i)
    ensures i + 7 < |v|
  {
  }

  /** `extract_sec_act` finds the first match, and finds none exactly when there is none. */
  lemma {:induction false} FirstSecActFirst(v: seq<byte>, i: nat)
    ensures FirstSecAct(v, i).Some? ==>
              i <= FirstSecAct(v, i).value && forall k :: i <= k < FirstSecAct(v, i).value ==> !SecActAt(v, k)
    ensures FirstSecAct(v, i).None? ==> forall k :: i <= k ==> !SecActAt(v, k)
    decreases |v| - i
  {
    if i + 6 >= |v| {
      forall k | i <= k
        ensures !SecActAt(v, k)
      {
        if SecActAt(v, k) {
          SecActRoom(v, k);
        }
      }
    } else if !SecActAt(v, i) {
      FirstSecActFirst(v, i + 1);
    }
  }

  lemma ExtractSecActFinds(v: seq<byte>)
    ensures ExtractSecAct(v).None? <==> forall k :: 0 <= k ==> !SecActAt(v, k)
    ensures ExtractSecAct(v).Some? ==>
              var i := ExtractSecAct(v).value.start - 2;
              0 <= i && SecActAt(v, i) && forall k :: 0 <= k < i ==> !SecActAt(v, k)
  {
    FirstSecActFirst(v, 0);
    if |v| < 7 {
      forall k | 0 <= k
        ensures !SecActAt(v, k)
      {
        if SecActAt(v, k) {
          SecActRoom(v, k);
        }
      }
    }
  }

  /** `[`, one or more digits, `]`, with the `[` at `i`. */
  predicate SicAt(v: seq<byte>, i: nat)
  {
    i + 2 < |v| && v[i] == '[' as int && IsDigit(v[i + 1])
    && var j := SkipDigits(v, i + 1);
       j < |v| && v[j] == ']' as int
  }

  /** `extract_sic`: the digits inside the first bracketed run of digits. */
  function ExtractSic(v: seq<byte>): (r: Option<Span>)
    ensures r.Some? ==> r.value.len > 0 && r.value.End() <= |v|
  {
    if |v| < 3 then None
    else match FirstSic(v, 0)
      case Some(i) => Some(Span(i + 1, SkipDigits(v, i + 1) - (i + 1)))
      case None => None
  }

  function FirstSic(v: seq<byte>, i: nat): (r: Option<nat>)
    ensures r.Some? ==> SicAt(v, r.value)
    decreases |v| - i
  {
    if i + 2 >= |v| then None
    else if SicAt(v, i) then Some(i)
    else FirstSic(v, i + 1)
  }

  lemma {:induction false} FirstSicFirst(v: seq<byte>, i: nat)
    ensures FirstSic(v, i).Some? ==>
              i <= FirstSic(v, i).value && forall k :: i <= k < FirstSic(v, i).value ==> !SicAt(v, k)
    ensures FirstSic(v, i).None? ==> forall k :: i <= k ==> !SicAt(v, k)
    decreases |v| - i
  {
    if i + 2 < |v| && !SicAt(v, i) {
      FirstSicFirst(v, i + 1);
    }
  }

  /** The extracted bytes are all digits, and the bracket closes right after them. */
  lemma ExtractSicFinds(v: seq<byte>)
    ensures ExtractSic(v).None? <==> forall k :: 0 <= k ==> !SicAt(v, k)
    ensures ExtractSic(v).Some? ==>
              var s := ExtractSic(v).value;
              1 <= s.start && SicAt(v, s.start - 1) && (forall k :: 0 <= k < s.start - 1 ==> !SicAt(v, k))
              && s.End() < |v| && v[s.End()] == ']' as int
  {
    FirstSicFirst(v, 0);
  }

  lemma SkipDigitsAreDigits(v: seq<byte>, j: nat)
    requires j <= |v|
    ensures forall k :: j <= k < SkipDigits(v, j) ==> IsDigit(v[k])
    decreases |v| - j
  {
    if j < |v| && IsDigit(v[j]) {
      SkipDigitsAreDigits(v, j + 1);
    }
  }

  // ---------------------------------------------------------------------------
  // The fallback key
  // ---------------------------------------------------------------------------

  /** `s` without its leading whitespace. */
  function DropSpaces(s: seq<byte>): (r: seq<byte>)
    ensures |r| <= |s| && (r != [] ==> !IsSpace(r[0]))
  {
    if s != [] && IsSpace(s[0]) then DropSpaces(s[1..]) else s
  }

  /**
   * A key the table does not know: lowercased, with each maximal run of
   * whitespace turned into a single '-'.
   */
  function FallbackKey(s: seq<byte>): (r: seq<byte>)
    decreases |s|
  {
    if s == [] then []
    else if IsSpace(s[0]) then [DASH] + FallbackKey(DropSpaces(s[1..]))
    else [ToLowerAscii(s[0])] + FallbackKey(s[1..])
  }

  /**
   * The fallback key is no longer than the key, empty only when the key is,
   * and holds neither whitespace nor upper-case letters.
   */
  lemma {:induction false} FallbackKeyShape(s: seq<byte>)
    ensures |FallbackKey(s)| <= |s|
    ensures |FallbackKey(s)| == 0 <==> |s| == 0
    ensures forall i :: 0 <= i < |FallbackKey(s)| ==> !IsSpace(FallbackKey(s)[i]) && !IsUpper(FallbackKey(s)[i])
    decreases |s|
  {
    if s != [] {
      var rest := if IsSpace(s[0]) then DropSpaces(s[1..]) else s[1..];
      FallbackKeyShape(rest);
      assert FallbackKey(s) == [FallbackKey(s)[0]] + FallbackKey(rest);
    }
  }

  /** A key without whitespace falls back to its lowercase form. */
  lemma {:induction false} FallbackWithoutSpaces(s: seq<byte>)
    requires forall i :: 0 <= i < |s| ==> !IsSpace(s[i])
    ensures FallbackKey(s) == Lower(s)
    decreases |s|
  {
    if s != [] {
      FallbackWithoutSpaces(s[1..]);
      assert Lower(s) == [ToLowerAscii(s[0])] + Lower(s[1..]);
    }
  }

  /** What `build_fallback_key` writes for the lowercased byte `c`, `inWs` telling whether a run of whitespace is open. */
  function FallbackOut(c: byte, inWs: bool): seq<byte>
  {
    if !IsSpace(c) then [c] else if inWs then [] else [DASH]
  }

  /** The loop of `build_fallback_key` from byte `i` on. */
  function FallbackFrom(s: seq<byte>, i: nat, inWs: bool): seq<byte>
    requires i <= |s|
    decreases |s| - i
  {
    if i == |s| then []
    else
      var c := ToLowerAscii(s[i]);
      FallbackOut(c, inWs) + FallbackFrom(s, i + 1, IsSpace(c))
  }

  /** The loop writes the fallback key of what is left, past the open run of whitespace. */
  lemma {:induction false} FallbackFromKey(s: seq<byte>, i: nat, inWs: bool)
    requires i <= |s|
    ensures FallbackFrom(s, i, inWs) == FallbackKey(if inWs then DropSpaces(s[i..]) else s[i..])
    decreases |s| - i
  {
    if i < |s| {
      assert s[i..] == [s[i]] + s[i + 1..];
      assert s[i..][1..] == s[i + 1..];
      if IsSpace(s[i]) {
        FallbackFromKey(s, i + 1, true);
      } else {
        FallbackFromKey(s, i + 1, false);
      }
    }
  }

  /** The loop's output from the start is the fallback key. */
  lemma FallbackFromStart(s: seq<byte>)
    ensures FallbackFrom(s, 0, false) == FallbackKey(s)
  {
    FallbackFromKey(s, 0, false);
    assert s[0..] == s;
  }

  /**
   * `build_fallback_key`: no key for an empty one, nor when `malloc` fails;
   * otherwise the write cursor `w` fills a buffer of the key's length.
   */
  method BuildFallbackKey(src: seq<byte>, alloc: Allocator) returns (key: Option<seq<byte>>)
    ensures key == if |src| == 0 || !alloc(FallbackBuffer(|src|)) then None else Some(FallbackKey(src))
  {
    if |src| == 0 || !alloc(FallbackBuffer(|src|)) {
      return None;
    }
    var buf := new byte[|src|];
    var w := 0;
    var inWs := false;
    for i := 0 to |src|
      invariant 0 <= w <= i && buf.Length == |src|
      invariant buf[..w] + FallbackFrom(src, i, inWs) == FallbackFrom(src, 0, false)
    {
      var c := ToLowerAscii(src[i]);
      FallbackStep(buf[..w], src, i, inWs);
      w, inWs := PutFallbackByte(buf, w, c, inWs);
    }
    assert buf[..w] + FallbackFrom(src, |src|, inWs) == buf[..w];
    FallbackFromStart(src);
    return Some(buf[..w]);
  }

  /** After writing byte `i`'s output, what is written and what is left still make up the whole key. */
  lemma FallbackStep(done: seq<byte>, s: seq<byte>, i: nat, inWs: bool)
    requires i < |s|
    ensures var c := ToLowerAscii(s[i]);
            done + FallbackFrom(s, i, inWs) == done + FallbackOut(c, inWs) + FallbackFrom(s, i + 1, IsSpace(c))
  {
    var c := ToLowerAscii(s[i]);
    var out, rest := FallbackOut(c, inWs), FallbackFrom(s, i + 1, IsSpace(c));
    assert FallbackFrom(s, i, inWs) == out + rest;
    AppendAssoc(done, out, rest);
  }

  /** One turn of the loop of `build_fallback_key`: writes the byte's output at `w`. */
  method PutFallbackByte(buf: array<byte>, w: nat, c: byte, inWs: bool) returns (w1: nat, inWs1: bool)
    requires w < buf.Length
    modifies buf
    ensures inWs1 == IsSpace(c) && w1 == w + |FallbackOut(c, inWs)| && w1 <= buf.Length
    ensures buf[..w1] == old(buf[..w]) + FallbackOut(c, inWs)
  {
    w1, inWs1 := w, IsSpace(c);
    if IsSpace(c) {
      if !inWs {
        buf[w] := DASH;
        w1 := w + 1;
      }
    } else {
      buf[w] := c;
      w1 := w + 1;
    }
    assert buf[..w] == old(buf[..w]);
  }

  // ---------------------------------------------------------------------------
  // Keys and values of one event
  // ---------------------------------------------------------------------------

  /** A key after normalisation: none, these bytes, or out of memory. */
  datatype KeyOut = NoKeyOut | KeyText(text: seq<byte>) | KeyOom

  /** The bytes of an input key: a span of the header, or the privacy key's static text. */
  function KeyBytes(buf: seq<byte>, k: Key): seq<byte>
    requires k.Slice? ==> SpanIn(k.span, 0, |buf|)
  {
    match k
    case Slice(s) => if s.len == 0 then [] else buf[s.start..s.End()]
    case PrivacyKey => PrivacyKeyText
  }

  /** The key without the leading '/' of a closing tag. */
  function Unslashed(kin: seq<byte>): (k: seq<byte>)
    ensures |k| <= |kin|
  {
    if |kin| > 0 && kin[0] == SLASH then kin[1..] else kin
  }

  /**
   * A non-empty key without its '/': the table's name for its lowercase
   * form, or else the fallback key. No key results when a buffer cannot be
   * allocated.
   */
  function NameKey(k: seq<byte>, alloc: Allocator): KeyOut
    requires |k| > 0
  {
    match Lowered(k, alloc(LowerKey(|k|)))
    case None => NoKeyOut
    case Some(lower) =>
      match LookupMap(lower)
      case Some(me) => KeyText(Lit(me.to))
      case None => if alloc(FallbackBuffer(|k|)) then KeyText(FallbackKey(k)) else NoKeyOut
  }

  /**
   * The key loop of `standardize_submission_metadata`: a leading '/' is set
   * aside and put back in front of the name (in a buffer that may fail to
   * allocate); a key that is exactly "/" is copied as it is.
   */
  function NormKey(kin: seq<byte>, alloc: Allocator): KeyOut
  {
    if |kin| > 0 && kin[0] == SLASH then
      if |kin| == 1 then KeyText(kin)
      else match NameKey(kin[1..], alloc)
        case KeyText(t) => if alloc(SlashedKey(|t| + 1)) then KeyText([SLASH] + t) else KeyOom
        case other => other
    else if |kin| > 0 then NameKey(kin, alloc)
    else NoKeyOut
  }

  /** A key that gets a name gets a non-empty one, so an empty arena span always means failure. */
  lemma NormKeyNonEmpty(kin: seq<byte>, alloc: Allocator)
    ensures NormKey(kin, alloc).KeyText? ==> |NormKey(kin, alloc).text| > 0
  {
    var k := Unslashed(kin);
    if |k| > 0 && NameKey(k, alloc).KeyText? {
      match Lowered(k, alloc(LowerKey(|k|)))
      case Some(lower) =>
        match LookupMap(lower)
        case Some(me) =>
          LookupMapNames(lower);
        case None =>
          FallbackKeyShape(k);
    }
  }

  /** A known key is named by the table. */
  lemma NameKeyMapped(k: seq<byte>, me: MapEntry, alloc: Allocator)
    requires |k| > 0 && |k| <= 256 && LookupMap(Lower(k)) == Some(me)
    ensures NameKey(k, alloc) == KeyText(Lit(me.to))
  {
  }

  /** A known key becomes the table's name, with its '/' kept in front. */
  lemma NormKeyMapped(k: seq<byte>, me: MapEntry, alloc: Allocator)
    requires |k| > 0 && |k| <= 256 && LookupMap(Lower(k)) == Some(me)
    ensures k[0] != SLASH ==> NormKey(k, alloc) == KeyText(Lit(me.to))
    ensures alloc(SlashedKey(|me.to| + 1)) ==> NormKey([SLASH] + k, alloc) == KeyText([SLASH] + Lit(me.to))
  {
    NameKeyMapped(k, me, alloc);
    assert ([SLASH] + k)[1..] == k;
  }

  /** `accession number` is the table's second entry. */
  lemma AccessionNumberEntry(key: seq<byte>)
    requires key == Lit("accession number")
    ensures LookupMap(key) == Some(MapEntry("accession number", "accession-number", NoRule))
  {
    assert |Map()[0].from| != |key|;
    assert Spells(key, Map()[1].from);
    LookupInAt(Map(), key, 0, 1);
  }

  /** The value's bytes after the table's rule for the key, if it has one, picked them out. */
  function Extracted(k: seq<byte>, v: seq<byte>, alloc: Allocator): (r: Option<Span>)
    ensures r.Some? ==> r.value.len > 0 && r.value.End() <= |v|
  {
    if |k| == 0 then None
    else match Lowered(k, alloc(LowerValueKey(|k|)))
      case None => None
      case Some(lower) =>
        match LookupMap(lower)
        case None => None
        case Some(me) =>
          match me.rule
          case NoRule => None
          case SecActRule => ExtractSecAct(v)
          case SicRule => ExtractSic(v)
  }

  /** The value loop: the extracted bytes when the rule matched, else the value unchanged. */
  function NormValue(k: seq<byte>, v: seq<byte>, alloc: Allocator): (r: seq<byte>)
    ensures |v| > 0 ==> |r| > 0
  {
    match Extracted(k, v, alloc)
    case Some(s) => v[s.start..s.End()]
    case None => v
  }

  /** No entry before `sec act` (index 17) spells it. */
  lemma {:induction false} NoSecActBefore(key: seq<byte>, k: nat)
    requires |key| == 7 && k <= 17
    ensures forall j :: k <= j < 17 ==> !Spells(key, Map()[j].from)
    decreases 17 - k
  {
    if k < 17 {
      NoSecActBefore(key, k + 1);
      assert Map()[k] == EntryLow(k);
      assert |EntryLow(k).from| != 7;
    }
  }

  /** `sec act` is the table's `SEC ACT` entry, with its extractor. */
  lemma SecActEntry(key: seq<byte>)
    requires key == Lit("sec act")
    ensures LookupMap(key) == Some(MapEntry("sec act", "act", SecActRule))
  {
    NoSecActBefore(key, 0);
    assert Spells(key, Map()[17].from);
    LookupInAt(Map(), key, 0, 17);
  }

  lemma LowerSecAct()
    ensures Lower(Lit("SEC ACT")) == Lit("sec act")
  {
  }

  /** `1934 Act` holds the act's two digits at 2. */
  lemma SecActOf1934()
    ensures ExtractSecAct(Lit("1934 Act")) == Some(Span(2, 2))
  {
    var v := Lit("1934 Act");
    assert SkipSpaces(v, 4) == 5;
    assert SecActAt(v, 0);
  }

  /** `SEC ACT: 1934 Act` keeps `34`. */
  lemma SecActValue(alloc: Allocator)
    ensures NormValue(Lit("SEC ACT"), Lit("1934 Act"), alloc) == Lit("34")
  {
    LowerSecAct();
    SecActEntry(Lit("sec act"));
    SecActOf1934();
  }

  // ---------------------------------------------------------------------------
  // The output and its arena
  // ---------------------------------------------------------------------------

  /** `standardized_submission_metadata`: events, their capacity, the arena, its capacity, the status. */
  datatype Out = Out(events: seq<Event>, cap: nat, arena: seq<byte>, arenaCap: nat, status: Status)

  const EmptyOut := Out([], 0, [], 0, Ok)

  /** The arena's first capacity. */
  const ArenaInitialCap: nat := 1024

  /** Doubling `c` until it reaches `need`. */
  function Doubled(c: nat, need: nat): nat
    requires c > 0
    decreases need - c
  {
    if c >= need then c else Doubled(2 * c, need)
  }

  function Pow2(k: nat): nat
  {
    if k == 0 then 1 else 2 * Pow2(k - 1)
  }

  /** The least `c * 2^k` that is at least `need`. */
  lemma {:induction false} DoubledLeast(c: nat, need: nat) returns (k: nat)
    requires c > 0
    ensures Doubled(c, need) == c * Pow2(k) && Doubled(c, need) >= need
    ensures k > 0 ==> Doubled(c, need) < 2 * need
    decreases need - c
  {
    if c >= need {
      k := 0;
    } else {
      var k1 := DoubledLeast(2 * c, need);
      k := k1 + 1;
      assert 2 * c * Pow2(k1) == c * Pow2(k);
    }
  }

  /** The capacity `arena_ensure` and `events_ensure` ask for: double the old one, or start at `initial`. */
  function GrowCap(cap: nat, need: nat, initial: nat): nat
    requires initial > 0
  {
    Doubled(if cap > 0 then 2 * cap else initial, need)
  }

  /** `arena_ensure`: the capacity after making room for `extra` more bytes, or None when `realloc` fails. */
  function ArenaEnsured(len: nat, cap: nat, extra: nat, alloc: Allocator): (r: Option<nat>)
    ensures r.Some? ==> len + extra <= r.value
  {
    if len + extra <= cap then Some(cap)
    else
      var c := GrowCap(cap, len + extra, ArenaInitialCap);
      DoubledLeastHolds(if cap > 0 then 2 * cap else ArenaInitialCap, len + extra);
      if alloc(ArenaBlock(c)) then Some(c) else None
  }

  /** `events_ensure`: the same with 128 events to start with. */
  function EventsEnsured(count: nat, cap: nat, extra: nat, alloc: Allocator): (r: Option<nat>)
    ensures r.Some? ==> count + extra <= r.value
  {
    if count + extra <= cap then Some(cap)
    else
      var c := GrowCap(cap, count + extra, EventsInitialCap);
      DoubledLeastHolds(if cap > 0 then 2 * cap else EventsInitialCap, count + extra);
      if alloc(StdEventsTable(c)) then Some(c) else None
  }

  lemma DoubledLeastHolds(c: nat, need: nat)
    requires c > 0
    ensures Doubled(c, need) >= need
  {
    var _ := DoubledLeast(c, need);
  }

  /**
   * `arena_append`: the bytes go at the end of the arena and the span points
   * at them; nothing is appended, and the span is empty, when there is
   * nothing to append or the arena cannot grow.
   */
  function Append(o: Out, src: seq<byte>, alloc: Allocator): (r: (Out, Span))
    ensures IsPrefix(o.arena, r.0.arena) && |r.0.arena| == |o.arena| + r.1.len
    ensures r.1.len > 0 ==> r.1.len == |src| && r.1.End() == |r.0.arena| && r.0.arena[r.1.start..] == src
    ensures r.1.len == 0 ==> r.0 == o
    ensures r.0.events == o.events && r.0.status == o.status
  {
    if |src| == 0 then (o, EmptySpan)
    else match ArenaEnsured(|o.arena|, o.arenaCap, |src|, alloc)
      case None => (o, EmptySpan)
      case Some(c) => (o.(arena := o.arena + src, arenaCap := c), Span(|o.arena|, |src|))
  }

  // ---------------------------------------------------------------------------
  // One event, and the whole table
  // ---------------------------------------------------------------------------

  /** The input events' spans lie in the buffer. */
  predicate EventsIn(buf: seq<byte>, es: seq<Event>)
  {
    forall i :: 0 <= i < |es| ==> EventWithin(es[i], 0, |buf|)
  }

  function ValueBytes(buf: seq<byte>, e: Event): seq<byte>
    requires EventWithin(e, 0, |buf|)
  {
    if e.value.len == 0 then [] else buf[e.value.start..e.value.End()]
  }

  /** The output after a failed allocation: the loop breaks with status OOM. */
  function Oom(o: Out): (Out, bool)
  {
    (o.(status := OutOfMemory), true)
  }

  /**
   * One turn of the loop of `standardize_submission_metadata`: the new
   * event and whether the loop breaks.
   */
  function StdEvent(o: Out, buf: seq<byte>, e: Event, alloc: Allocator): (Out, bool)
    requires EventWithin(e, 0, |buf|)
  {
    var kin := KeyBytes(buf, e.key);
    match NormKey(kin, alloc)
    case KeyOom => Oom(o)
    case NoKeyOut => StdValue(o, buf, e, Unslashed(kin), EmptySpan, alloc)
    case KeyText(t) =>
      var (o1, ks) := Append(o, t, alloc);
      if ks.len == 0 then Oom(o1) else StdValue(o1, buf, e, Unslashed(kin), ks, alloc)
  }

  /** The rest of the turn once the key is in the arena at `ks`: only key-value events carry a value. */
  function StdValue(o: Out, buf: seq<byte>, e: Event, k: seq<byte>, ks: Span, alloc: Allocator): (Out, bool)
    requires EventWithin(e, 0, |buf|)
  {
    if e.kind == KeyValue && e.value.len > 0 then
      var (o1, vs) := Append(o, NormValue(k, ValueBytes(buf, e), alloc), alloc);
      if vs.len == 0 then Oom(o1)
      else (o1.(events := o1.events + [Event(e.kind, Slice(ks), vs, e.depth)]), false)
    else (o.(events := o.events + [Event(e.kind, Slice(ks), EmptySpan, e.depth)]), false)
  }

  /**
   * The loop over the input events, until one breaks it. Every event before
   * the current one added an output event, so the current turn's index is
   * the number of output events.
   */
  function StdEvents(o: Out, buf: seq<byte>, es: seq<Event>, alloc: Allocator): Out
    requires EventsIn(buf, es)
    decreases |es|
  {
    if es == [] then o
    else
      var (o1, stop) := StdEvent(o, buf, es[0], InTurnOf(alloc, |o.events|));
      if stop then o1 else StdEvents(o1, buf, es[1..], alloc)
  }

  /**
   * `standardize_submission_metadata`: no events gives an empty OK result
   * whatever the input status; a non-OK status is passed on with no events;
   * otherwise the event table is sized for every input event up front.
   */
  function Standardize(buf: seq<byte>, es: seq<Event>, status: Status, alloc: Allocator): Out
    requires EventsIn(buf, es)
  {
    if |es| == 0 then EmptyOut
    else if status != Ok then EmptyOut.(status := status)
    else match EventsEnsured(0, 0, |es|, alloc)
      case None => EmptyOut.(status := OutOfMemory)
      case Some(c) => StdEvents(EmptyOut.(cap := c), buf, es, alloc)
  }

  // ---------------------------------------------------------------------------
  // What the standardized table holds
  // ---------------------------------------------------------------------------

  /** The span `s` of the arena holds exactly `t`; an empty span holds nothing. */
  predicate Holds(arena: seq<byte>, s: Span, t: seq<byte>)
  {
    if s.len == 0 then t == [] else s.End() <= |arena| && arena[s.start..s.End()] == t
  }

  /** What the key of `e` becomes in the arena: its name, or nothing. */
  function KeyTextOf(buf: seq<byte>, e: Event, alloc: Allocator): seq<byte>
    requires EventWithin(e, 0, |buf|)
  {
    match NormKey(KeyBytes(buf, e.key), alloc)
    case KeyText(t) => t
    case _ => []
  }

  /** What the value of `e` becomes in the arena. */
  function ValueTextOf(buf: seq<byte>, e: Event, alloc: Allocator): seq<byte>
    requires EventWithin(e, 0, |buf|)
  {
    if e.kind == KeyValue && e.value.len > 0 then NormValue(Unslashed(KeyBytes(buf, e.key)), ValueBytes(buf, e), alloc)
    else []
  }

  /** `out` is `e` standardized: same kind and depth, its key and value as the arena holds them. */
  predicate Standardized(arena: seq<byte>, buf: seq<byte>, e: Event, out: Event, alloc: Allocator)
    requires EventWithin(e, 0, |buf|)
  {
    && out.kind == e.kind && out.depth == e.depth && out.key.Slice?
    && Holds(arena, out.key.span, KeyTextOf(buf, e, alloc))
    && Holds(arena, out.value, ValueTextOf(buf, e, alloc))
  }

  /** Holding survives appends to the arena: earlier spans keep their bytes. */
  lemma HoldsGrows(a: seq<byte>, b: seq<byte>, s: Span, t: seq<byte>)
    requires Holds(a, s, t) && IsPrefix(a, b)
    ensures Holds(b, s, t)
  {
    if s.len > 0 {
      assert b[s.start..s.End()] == a[s.start..s.End()];
    }
  }

  /**
   * One turn either breaks with status OOM and no new event, or appends the
   * standardized event; the arena only grows.
   */
  lemma StdEventStandardizes(o: Out, buf: seq<byte>, e: Event, alloc: Allocator)
    requires EventWithin(e, 0, |buf|)
    ensures var (o1, stop) := StdEvent(o, buf, e, alloc);
            && IsPrefix(o.arena, o1.arena)
            && (stop ==> o1.events == o.events && o1.status == OutOfMemory)
            && (!stop ==> (o1.status == o.status && |o1.events| == |o.events| + 1
                           && o1.events[..|o.events|] == o.events
                           && Standardized(o1.arena, buf, e, o1.events[|o.events|], alloc)))
  {
    var kin := KeyBytes(buf, e.key);
    NormKeyNonEmpty(kin, alloc);
    match NormKey(kin, alloc)
    case KeyOom =>
    case NoKeyOut =>
      assert KeyTextOf(buf, e, alloc) == [];
      StdValueStandardizes(o, buf, e, EmptySpan, alloc);
    case KeyText(t) =>
      var (o1, ks) := Append(o, t, alloc);
      if ks.len > 0 {
        assert KeyTextOf(buf, e, alloc) == t;
        AppendHolds(o, t, alloc);
        StdValueStandardizes(o1, buf, e, ks, alloc);
      }
  }

  /** What `Append` appends is what the span it returns holds. */
  lemma AppendHolds(o: Out, src: seq<byte>, alloc: Allocator)
    ensures var (o1, s) := Append(o, src, alloc);
            s.len > 0 ==> Holds(o1.arena, s, src)
  {
    var (o1, s) := Append(o, src, alloc);
    if s.len > 0 {
      assert o1.arena[s.start..s.End()] == o1.arena[s.start..];
    }
  }

  lemma StdValueStandardizes(o: Out, buf: seq<byte>, e: Event, ks: Span, alloc: Allocator)
    requires EventWithin(e, 0, |buf|)
    requires Holds(o.arena, ks, KeyTextOf(buf, e, alloc))
    ensures var (o1, stop) := StdValue(o, buf, e, Unslashed(KeyBytes(buf, e.key)), ks, alloc);
            && IsPrefix(o.arena, o1.arena)
            && (stop ==> o1.events == o.events && o1.status == OutOfMemory)
            && (!stop ==> (o1.status == o.status && |o1.events| == |o.events| + 1
                           && o1.events[..|o.events|] == o.events
                           && Standardized(o1.arena, buf, e, o1.events[|o.events|], alloc)))
  {
    var (o1, stop) := StdValue(o, buf, e, Unslashed(KeyBytes(buf, e.key)), ks, alloc);
    if e.kind == KeyValue && e.value.len > 0 {
      var (o2, vs) := Append(o, ValueTextOf(buf, e, alloc), alloc);
      HoldsGrows(o.arena, o2.arena, ks, KeyTextOf(buf, e, alloc));
    }
    assert (o1.events + [])[..|o.events|] == o.events || stop;
  }

  lemma EventsInSuffix(buf: seq<byte>, es: seq<Event>, i: nat)
    requires EventsIn(buf, es) && i <= |es|
    ensures EventsIn(buf, es[i..])
  {
    assert forall k :: 0 <= k < |es| - i ==> es[i..][k] == es[i + k];
  }

  /** Output `i` is input `i` standardized by turn `i` of the loop. */
  predicate StandardizedAt(arena: seq<byte>, buf: seq<byte>, es: seq<Event>, outs: seq<Event>, i: nat, alloc: Allocator)
    requires EventsIn(buf, es) && i < |outs| <= |es|
  {
    Standardized(arena, buf, es[i], outs[i], InTurnOf(alloc, i))
  }

  /** How many of the outputs `outs` are not the input at the same index standardized. */
  function Unstandardized(arena: seq<byte>, buf: seq<byte>, es: seq<Event>, outs: seq<Event>, alloc: Allocator): (n: nat)
    requires EventsIn(buf, es) && |outs| <= |es|
    ensures n <= |outs|
    decreases |outs|
  {
    if outs == [] then 0
    else
      var j := |outs| - 1;
      Unstandardized(arena, buf, es, outs[..j], alloc) + (if StandardizedAt(arena, buf, es, outs, j, alloc) then 0 else 1)
  }

  /** A prefix of the outputs agrees with the whole on each of its indices. */
  lemma StandardizedAtPrefix(arena: seq<byte>, buf: seq<byte>, es: seq<Event>, outs: seq<Event>, j: nat, i: nat, alloc: Allocator)
    requires EventsIn(buf, es) && |outs| <= |es| && i < j <= |outs|
    ensures StandardizedAt(arena, buf, es, outs[..j], i, alloc) == StandardizedAt(arena, buf, es, outs, i, alloc)
  {
    assert outs[..j][i] == outs[i];
  }

  /** With none off, output `i` is input `i` standardized. */
  lemma {:induction false} UnstandardizedNoneOff(arena: seq<byte>, buf: seq<byte>, es: seq<Event>, outs: seq<Event>, i: nat, alloc: Allocator)
    requires EventsIn(buf, es) && i < |outs| <= |es|
    requires Unstandardized(arena, buf, es, outs, alloc) == 0
    ensures StandardizedAt(arena, buf, es, outs, i, alloc)
    decreases |outs|
  {
    var j := |outs| - 1;
    if i < j {
      UnstandardizedNoneOff(arena, buf, es, outs[..j], i, alloc);
      StandardizedAtPrefix(arena, buf, es, outs, j, i, alloc);
    }
  }

  /** With each output its input standardized, none is off. */
  lemma {:induction false} AllStandardizedNoneOff(arena: seq<byte>, buf: seq<byte>, es: seq<Event>, outs: seq<Event>, alloc: Allocator)
    requires EventsIn(buf, es) && |outs| <= |es|
    requires forall i :: 0 <= i < |outs| ==> StandardizedAt(arena, buf, es, outs, i, alloc)
    ensures Unstandardized(arena, buf, es, outs, alloc) == 0
    decreases |outs|
  {
    if outs != [] {
      var j := |outs| - 1;
      forall i | 0 <= i < j
        ensures StandardizedAt(arena, buf, es, outs[..j], i, alloc)
      {
        StandardizedAtPrefix(arena, buf, es, outs, j, i, alloc);
      }
      AllStandardizedNoneOff(arena, buf, es, outs[..j], alloc);
    }
  }

  /** None is off exactly when each output is its input standardized. */
  lemma UnstandardizedEach(arena: seq<byte>, buf: seq<byte>, es: seq<Event>, outs: seq<Event>, alloc: Allocator)
    requires EventsIn(buf, es) && |outs| <= |es|
    ensures Unstandardized(arena, buf, es, outs, alloc) == 0 <==>
            forall i :: 0 <= i < |outs| ==> StandardizedAt(arena, buf, es, outs, i, alloc)
  {
    if Unstandardized(arena, buf, es, outs, alloc) == 0 {
      forall i | 0 <= i < |outs| {
        UnstandardizedNoneOff(arena, buf, es, outs, i, alloc);
      }
    }
    if forall i :: 0 <= i < |outs| ==> StandardizedAt(arena, buf, es, outs, i, alloc) {
      AllStandardizedNoneOff(arena, buf, es, outs, alloc);
    }
  }

  /** Growing the arena keeps every standardized output standardized. */
  lemma {:induction false} UnstandardizedGrows(a: seq<byte>, b: seq<byte>, buf: seq<byte>, es: seq<Event>, outs: seq<Event>, alloc: Allocator)
    requires EventsIn(buf, es) && |outs| <= |es| && IsPrefix(a, b)
    requires Unstandardized(a, buf, es, outs, alloc) == 0
    ensures Unstandardized(b, buf, es, outs, alloc) == 0
    decreases |outs|
  {
    if outs != [] {
      var j := |outs| - 1;
      UnstandardizedGrows(a, b, buf, es, outs[..j], alloc);
      HoldsGrows(a, b, outs[j].key.span, KeyTextOf(buf, es[j], InTurnOf(alloc, j)));
      HoldsGrows(a, b, outs[j].value, ValueTextOf(buf, es[j], InTurnOf(alloc, j)));
    }
  }

  /** The first outputs are the first inputs standardized, pair by pair. */
  predicate StandardizedPrefix(o: Out, buf: seq<byte>, es: seq<Event>, alloc: Allocator)
  {
    EventsIn(buf, es) && |o.events| <= |es| && Unstandardized(o.arena, buf, es, o.events, alloc) == 0
  }

  /** Turn `i` of the loop keeps the outputs in step with the inputs. */
  lemma StdTurn(o: Out, buf: seq<byte>, es: seq<Event>, i: nat, alloc: Allocator)
    requires EventsIn(buf, es) && i < |es| && |o.events| == i
    requires Unstandardized(o.arena, buf, es, o.events, alloc) == 0
    ensures var (o1, stop) := StdEvent(o, buf, es[i], InTurnOf(alloc, i));
            && Unstandardized(o1.arena, buf, es, o1.events, alloc) == 0
            && (stop ==> |o1.events| == i && o1.status == OutOfMemory)
            && (!stop ==> |o1.events| == i + 1 && o1.status == o.status)
  {
    var (o1, stop) := StdEvent(o, buf, es[i], InTurnOf(alloc, i));
    StdEventStandardizes(o, buf, es[i], InTurnOf(alloc, i));
    UnstandardizedGrows(o.arena, o1.arena, buf, es, o.events, alloc);
    if !stop {
      assert o1.events[..i] == o.events;
    }
  }

  /**
   * The loop from input `i` on keeps the outputs in step with the inputs,
   * until it breaks with OOM.
   */
  lemma {:induction false} StdEventsStandardize(o: Out, buf: seq<byte>, es: seq<Event>, i: nat, alloc: Allocator)
    requires EventsIn(buf, es) && i <= |es| && |o.events| == i
    requires Unstandardized(o.arena, buf, es, o.events, alloc) == 0
    ensures EventsIn(buf, es[i..])
    ensures var r := StdEvents(o, buf, es[i..], alloc);
            && i <= |r.events| <= |es| && Unstandardized(r.arena, buf, es, r.events, alloc) == 0
            && (o.status == Ok ==> (r.status == Ok <==> |r.events| == |es|))
            && (r.status == o.status || r.status == OutOfMemory)
    decreases |es| - i
  {
    EventsInSuffix(buf, es, i);
    if i < |es| {
      var (o1, stop) := StdEvent(o, buf, es[i], InTurnOf(alloc, i));
      StdTurn(o, buf, es, i, alloc);
      if !stop {
        assert es[i..][1..] == es[i + 1..];
        StdEventsStandardize(o1, buf, es, i + 1, alloc);
      }
    }
  }

  /**
   * On success, the output has one standardized event per input event, in
   * order, with the same kind and depth; after an allocation failure it has
   * the first few of them and status OOM. With no events the result is an
   * empty OK table, and a non-OK input status is passed on with no events.
   */
  lemma StandardizeMaps(buf: seq<byte>, es: seq<Event>, status: Status, alloc: Allocator)
    requires EventsIn(buf, es)
    ensures var r := Standardize(buf, es, status, alloc);
            && StandardizedPrefix(r, buf, es, alloc)
            && (|es| == 0 ==> r == EmptyOut)
            && (|es| > 0 && status != Ok ==> r.events == [] && r.status == status)
            && (|es| > 0 && status == Ok ==> (r.status == Ok <==> |r.events| == |es|))
            && (r.status == Ok || r.status == status || r.status == OutOfMemory)
  {
    if |es| > 0 && status == Ok {
      match EventsEnsured(0, 0, |es|, alloc)
      case None =>
      case Some(c) =>
        var o := EmptyOut.(cap := c);
        assert es[0..] == es && o.status == Ok && o.events == [];
        StdEventsStandardize(o, buf, es, 0, alloc);
        assert Standardize(buf, es, status, alloc) == StdEvents(o, buf, es, alloc);
    }
  }

  /** Only key-value events get a value. */
  lemma OnlyValuesGetValues(buf: seq<byte>, es: seq<Event>, status: Status, alloc: Allocator)
    requires EventsIn(buf, es)
    ensures var r := Standardize(buf, es, status, alloc);
            forall i :: 0 <= i < |r.events| ==> r.events[i].value.len > 0 ==> r.events[i].kind == KeyValue
  {
    StandardizeMaps(buf, es, status, alloc);
    var r := Standardize(buf, es, status, alloc);
    forall i | 0 <= i < |r.events|
      ensures r.events[i].value.len > 0 ==> r.events[i].kind == KeyValue
    {
      UnstandardizedNoneOff(r.arena, buf, es, r.events, i, alloc);
    }
  }

  /** A table built from events inside the buffer holds only events inside the buffer. */
  lemma TableIn(buf: seq<byte>, es: seq<Event>, hi: nat, v: Variant, alloc: Allocator)
    requires hi <= |buf|
    requires forall i :: 0 <= i < |es| ==> EventWithin(es[i], 0, hi)
    ensures EventsIn(buf, AddAll(EmptyTable, es, v, alloc).events)
  {
    var t := AddAll(EmptyTable, es, v, alloc);
    if v.Legacy? {
      var keep := AddAllKeepsSome(EmptyTable, es, alloc);
    } else {
      var n := AddAllKeepsPrefix(EmptyTable, es, v, alloc);
    }
    forall i | 0 <= i < |t.events|
      ensures EventWithin(t.events[i], 0, |buf|)
    {
      assert t.events[i] in es;
    }
  }

  /** What the header parser hands over is valid input: every span lies in the buffer. */
  lemma MetadataIsInput(buf: seq<byte>, v: Variant, alloc: Allocator)
    ensures EventsIn(buf, Metadata.Metadata(buf, v, alloc).0.events)
  {
    SubmissionEventsInHeader(buf, v);
    TableIn(buf, SubmissionEvents(buf, v), HeaderLen(buf), v, alloc);
  }

  // ---------------------------------------------------------------------------
  // The C code, step by step
  // ---------------------------------------------------------------------------

  class StandardizedMetadata {
    var events: seq<Event>
    var cap: nat
    var arena: seq<byte>
    var arenaCap: nat
    var status: Status

    function Snapshot(): Out
      reads this
    {
      Out(events, cap, arena, arenaCap, status)
    }

    /** The zeroed result with status OK. */
    constructor ()
      ensures Snapshot() == EmptyOut
    {
      events, cap, arena, arenaCap, status := [], 0, [], 0, Ok;
    }

    /** `events_ensure`. */
    method EventsEnsure(extra: nat, alloc: Allocator) returns (ok: bool)
      modifies this
      ensures var r := EventsEnsured(|old(events)|, old(cap), extra, alloc);
              && ok == r.Some? && cap == (if ok then r.value else old(cap))
      ensures events == old(events) && arena == old(arena) && arenaCap == old(arenaCap) && status == old(status)
    {
      if |events| + extra <= cap {
        return true;
      }
      var newCap := if cap > 0 then cap * 2 else EventsInitialCap;
      while newCap < |events| + extra
        invariant newCap > 0
        invariant Doubled(newCap, |events| + extra) == GrowCap(cap, |events| + extra, EventsInitialCap)
        decreases |events| + extra - newCap
      {
        newCap := newCap * 2;
      }
      if !alloc(StdEventsTable(newCap)) {
        return false;
      }
      cap := newCap;
      return true;
    }

    /** `arena_ensure`. */
    method ArenaEnsure(extra: nat, alloc: Allocator) returns (ok: bool)
      modifies this
      ensures var r := ArenaEnsured(|old(arena)|, old(arenaCap), extra, alloc);
              && ok == r.Some? && arenaCap == (if ok then r.value else old(arenaCap))
      ensures events == old(events) && cap == old(cap) && arena == old(arena) && status == old(status)
    {
      if |arena| + extra <= arenaCap {
        return true;
      }
      var newCap := if arenaCap > 0 then arenaCap * 2 else ArenaInitialCap;
      while newCap < |arena| + extra
        invariant newCap > 0
        invariant Doubled(newCap, |arena| + extra) == GrowCap(arenaCap, |arena| + extra, ArenaInitialCap)
        decreases |arena| + extra - newCap
      {
        newCap := newCap * 2;
      }
      if !alloc(ArenaBlock(newCap)) {
        return false;
      }
      arenaCap := newCap;
      return true;
    }

    /** `arena_append`. */
    method ArenaAppend(src: seq<byte>, alloc: Allocator) returns (s: Span)
      modifies this
      ensures (Snapshot(), s) == Append(old(Snapshot()), src, alloc)
    {
      if |src| == 0 {
        return EmptySpan;
      }
      var ok := ArenaEnsure(|src|, alloc);
      if !ok {
        return EmptySpan;
      }
      s := Span(|arena|, |src|);
      arena := arena + src;
    }

    /** One turn of the loop. */
    method AddStandardized(buf: seq<byte>, e: Event, alloc: Allocator) returns (stop: bool)
      requires EventWithin(e, 0, |buf|)
      modifies this
      ensures (Snapshot(), stop) == StdEvent(old(Snapshot()), buf, e, alloc)
    {
      var kin := KeyBytes(buf, e.key);
      var key := NormalizeKey(kin, alloc);
      var ks := EmptySpan;
      match key {
        case KeyOom =>
          status := OutOfMemory;
          return true;
        case NoKeyOut =>
        case KeyText(t) =>
          ks := ArenaAppend(t, alloc);
          if ks.len == 0 {
            status := OutOfMemory;
            return true;
          }
      }
      var vs := EmptySpan;
      if e.kind == KeyValue && e.value.len > 0 {
        vs := ArenaAppend(NormValue(Unslashed(kin), ValueBytes(buf, e), alloc), alloc);
        if vs.len == 0 {
          status := OutOfMemory;
          return true;
        }
      }
      events := events + [Event(e.kind, Slice(ks), vs, e.depth)];
      return false;
    }
  }

  /** The key branch of the loop, with `build_fallback_key` as the C code runs it. */
  method NormalizeKey(kin: seq<byte>, alloc: Allocator) returns (r: KeyOut)
    ensures r == NormKey(kin, alloc)
  {
    var hasSlash := |kin| > 0 && kin[0] == SLASH;
    var k := if hasSlash then kin[1..] else kin;
    if |k| == 0 {
      return if |kin| > 0 then KeyText(kin) else NoKeyOut;
    }
    var name := NameOf(k, alloc);
    if hasSlash && name.KeyText? {
      if !alloc(SlashedKey(|name.text| + 1)) {
        return KeyOom;
      }
      return KeyText([SLASH] + name.text);
    }
    return name;
  }

  /** The table's name for a non-empty key, or its fallback key. */
  method NameOf(k: seq<byte>, alloc: Allocator) returns (r: KeyOut)
    requires |k| > 0
    ensures r == NameKey(k, alloc)
  {
    var lower := Lowered(k, alloc(LowerKey(|k|)));
    if lower.None? {
      return NoKeyOut;
    }
    match LookupMap(lower.value) {
      case Some(me) =>
        return KeyText(Lit(me.to));
      case None =>
        var fallback := BuildFallbackKey(k, alloc);
        if fallback.None? {
          return NoKeyOut;
        }
        return KeyText(fallback.value);
    }
  }

  /** `standardize_submission_metadata`. */
  method StandardizeSubmissionMetadata(buf: seq<byte>, es: seq<Event>, status: Status, alloc: Allocator)
    returns (out: StandardizedMetadata)
    requires EventsIn(buf, es)
    ensures out.Snapshot() == Standardize(buf, es, status, alloc)
  {
    out := new StandardizedMetadata();
    if |es| == 0 {
      return;
    }
    if status != Ok {
      out.status := status;
      return;
    }
    var ok := out.EventsEnsure(|es|, alloc);
    if !ok {
      out.status := OutOfMemory;
      return;
    }
    var i := 0;
    while i < |es|
      invariant i <= |es| && EventsIn(buf, es[i..]) && |out.events| == i
      invariant StdEvents(out.Snapshot(), buf, es[i..], alloc) == Standardize(buf, es, status, alloc)
    {
      assert es[i..][0] == es[i] && es[i..][1..] == es[i + 1..];
      StdEventStandardizes(out.Snapshot(), buf, es[i], InTurnOf(alloc, i));
      var stop := out.AddStandardized(buf, es[i], InTurnOf(alloc, i));
      if stop {
        return;
      }
      i := i + 1;
    }
  }
}
