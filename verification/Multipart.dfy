/** The `multipart/form-data` scanner of the upload handler: a cursor over the
    request body, moved by three first-occurrence searches per part. */
module Multipart {
  import opened Basics

  const CR: byte := 13
  const LF: byte := 10
  const DASHES: seq<byte> := [45, 45]
  const CRLF: seq<byte> := [CR, LF]
  const BLANK_LINE: seq<byte> := [CR, LF, CR, LF]

  /** `s[i..].starts_with(pattern)` */
  predicate At(s: seq<byte>, pattern: seq<byte>, i: int) {
    0 <= i && i + |pattern| <= |s| && forall k :: 0 <= k < |pattern| ==> s[i + k] == pattern[k]
  }

  ghost predicate Occurs(s: seq<byte>, pattern: seq<byte>) {
    exists i :: At(s, pattern, i)
  }

  /** `r` is the first place at or after `from` where the pattern starts. */
  ghost predicate IsFirst(s: seq<byte>, pattern: seq<byte>, from: nat, r: Option<nat>) {
    match r
    case None => forall j :: from <= j < |s| ==> !At(s, pattern, j)
    case Some(i) => from <= i < |s| && At(s, pattern, i) && forall j :: from <= j < i ==> !At(s, pattern, j)
  }

  function Find(s: seq<byte>, pattern: seq<byte>, from: nat): (r: Option<nat>)
    ensures IsFirst(s, pattern, from, r)
    decreases |s| - from
  {
    if from >= |s| then None
    else if At(s, pattern, from) then Some(from)
    else Find(s, pattern, from + 1)
  }

  ghost predicate FoundAt(s: seq<byte>, pattern: seq<byte>, from: nat, i: int) {
    var r := Find(s, pattern, from);
    r.Some? && r.value == i
  }

  lemma FirstIsUnique(s: seq<byte>, pattern: seq<byte>, from: nat, r: Option<nat>)
    requires IsFirst(s, pattern, from, r)
    ensures r == Find(s, pattern, from)
  {
  }

  /** The search loop that the scanner repeats for every delimiter and header end. */
  method FindFrom(s: seq<byte>, pattern: seq<byte>, from: nat) returns (r: Option<nat>)
    ensures IsFirst(s, pattern, from, r)
    ensures r == Find(s, pattern, from)
  {
    r := None;
    var i := from;
    while i < |s|
      invariant from <= i
      invariant r == None
      invariant forall j :: from <= j < i && j < |s| ==> !At(s, pattern, j)
    {
      if At(s, pattern, i) {
        r := Some(i);
        break;
      }
      i := i + 1;
    }
    FirstIsUnique(s, pattern, from, r);
  }

  /** One part as the scanner cuts it: the header block with its blank line, and the content. */
  datatype Part = Part(headers: seq<byte>, content: seq<byte>)

  datatype Span = Span(headerStart: nat, contentStart: nat, contentEnd: nat)

  predicate InBounds(body: seq<byte>, span: Span) {
    span.headerStart <= span.contentStart <= span.contentEnd <= |body|
  }

  function Cut(body: seq<byte>, span: Span): Part
    requires InBounds(body, span)
  {
    Part(body[span.headerStart..span.contentStart], body[span.contentStart..span.contentEnd])
  }

  /** The next part at or after the cursor: the first delimiter, the first blank
      line two bytes past it, and the next delimiter or the end of the body. */
  function Next(body: seq<byte>, delimiter: seq<byte>, pos: nat): (r: Option<Span>)
    ensures r.Some? ==> InBounds(body, r.value) && pos + |delimiter| + 6 <= r.value.contentStart
  {
    match Find(body, delimiter, pos)
    case None => None
    case Some(start) =>
      var headerStart := start + |delimiter| + 2;
      match Find(body, BLANK_LINE, headerStart)
      case None => None
      case Some(blank) =>
        var contentEnd := match Find(body, delimiter, blank + 4) case None => |body| case Some(e) => e;
        Some(Span(headerStart, blank + 4, contentEnd))
  }

  /** Where the parts lie that the scanner emits when its cursor stands at `pos`. */
  function Spans(body: seq<byte>, delimiter: seq<byte>, pos: nat): seq<Span>
    decreases |body| - pos
  {
    match Next(body, delimiter, pos)
    case None => []
    case Some(span) => [span] + Spans(body, delimiter, span.contentEnd)
  }

  /** The parts the scanner emits when its cursor stands at `pos`. */
  function Parts(body: seq<byte>, delimiter: seq<byte>, pos: nat): seq<Part>
    decreases |body| - pos
  {
    match Next(body, delimiter, pos)
    case None => []
    case Some(span) => [Cut(body, span)] + Parts(body, delimiter, span.contentEnd)
  }

  /** The three searches of one turn of the scanner's loop. The header search may
      start past the end of the body; it then finds nothing. */
  method NextPart(body: seq<byte>, delimiter: seq<byte>, pos: nat) returns (span: Option<Span>)
    ensures span == Next(body, delimiter, pos)
  {
    var currentPos := pos;
    var partStart := FindFrom(body, delimiter, currentPos);
    if partStart.None? {
      return None;
    }
    if partStart.value > currentPos {
      currentPos := partStart.value;
    }
    currentPos := currentPos + |delimiter| + 2;
    var blank := FindFrom(body, BLANK_LINE, currentPos);
    if blank.None? {
      return None;
    }
    var headerEnd := blank.value + 4;
    var partEnd := FindFrom(body, delimiter, headerEnd);
    if partEnd.None? {
      partEnd := Some(|body|);
    }
    return Some(Span(currentPos, headerEnd, partEnd.value));
  }

  /** `handle_upload_file`'s part loop. Every slice it takes is in bounds for every
      body and boundary, and the cursor strictly advances. */
  method ScanParts(body: seq<byte>, boundary: seq<byte>) returns (parts: seq<Part>)
    ensures parts == Parts(body, DASHES + boundary, 0)
  {
    var delimiter := DASHES + boundary;
    parts := [];
    var currentPos := 0;
    ghost var all := Parts(body, delimiter, 0);
    while currentPos < |body|
      invariant all == parts + Parts(body, delimiter, currentPos)
      decreases |body| - currentPos
    {
      var span := NextPart(body, delimiter, currentPos);
      if span.None? {
        assert parts + [] == parts;
        break;
      }
      parts := parts + [Cut(body, span.value)];
      currentPos := span.value.contentEnd;
    }
  }

  // --- Every body ---------------------------------------------------------

  /** What holds of a span scanned from cursor `from` on any bytes: the cursor grows by at
      least |delimiter| + 6, the delimiter and two bytes precede the header block, the header
      block ends at its first blank line, the content holds no delimiter, and it stops only
      before the next delimiter or at the end of the body. */
  ghost predicate WellCut(body: seq<byte>, delimiter: seq<byte>, from: nat, span: Span) {
    && InBounds(body, span)
    && from + |delimiter| + 6 <= span.contentStart
    && from + |delimiter| + 2 <= span.headerStart <= span.contentStart - 4
    && IsFirst(body, delimiter, from, Some(span.headerStart - |delimiter| - 2))
    && IsFirst(body, [13, 10, 13, 10], span.headerStart, Some(span.contentStart - 4))
    && !Occurs(Cut(body, span).content, delimiter)
    && (At(body, delimiter, span.contentEnd) || span.contentEnd == |body|)
  }

  lemma NoneInside(body: seq<byte>, delimiter: seq<byte>, start: nat, end: nat)
    requires start <= end <= |body| && delimiter != []
    requires forall j :: start <= j < end ==> !At(body, delimiter, j)
    ensures !Occurs(body[start..end], delimiter)
  {
    forall i | At(body[start..end], delimiter, i) ensures false {
      assert At(body, delimiter, start + i);
    }
  }

  lemma NextIsWellCut(body: seq<byte>, delimiter: seq<byte>, pos: nat)
    requires delimiter != [] && Next(body, delimiter, pos).Some?
    ensures WellCut(body, delimiter, pos, Next(body, delimiter, pos).value)
  {
    var span := Next(body, delimiter, pos).value;
    NoneInside(body, delimiter, span.contentStart, span.contentEnd);
  }

  /** Whatever bytes arrive, the parts are cut out left to right, disjoint, and well cut. */
  lemma {:induction false} ScanIsWellCut(body: seq<byte>, delimiter: seq<byte>, pos: nat, k: nat)
    requires delimiter != [] && k < |Spans(body, delimiter, pos)|
    ensures var spans := Spans(body, delimiter, pos);
      WellCut(body, delimiter, if k == 0 then pos else spans[k - 1].contentEnd, spans[k])
    ensures k < |Parts(body, delimiter, pos)| == |Spans(body, delimiter, pos)|
    ensures Parts(body, delimiter, pos)[k] == Cut(body, Spans(body, delimiter, pos)[k])
    decreases |body| - pos
  {
    var span := Next(body, delimiter, pos).value;
    NextIsWellCut(body, delimiter, pos);
    SameCount(body, delimiter, pos);
    if k > 0 {
      ScanIsWellCut(body, delimiter, span.contentEnd, k - 1);
    }
  }

  lemma SameCount(body: seq<byte>, delimiter: seq<byte>, pos: nat)
    ensures |Parts(body, delimiter, pos)| == |Spans(body, delimiter, pos)|
    decreases |body| - pos
  {
    match Next(body, delimiter, pos)
    case None =>
    case Some(span) => SameCount(body, delimiter, span.contentEnd);
  }

  lemma OneMore(n: nat, step: nat, from: nat, mid: nat, end: nat)
    requires from + step <= mid && mid + n * step <= end
    ensures from + (1 + n) * step <= end
  {
  }

  /** The scanner never loops without consuming: at most |body| / (|delimiter| + 6) parts. */
  lemma {:induction false} PartCount(body: seq<byte>, delimiter: seq<byte>, pos: nat)
    requires pos <= |body|
    ensures pos + |Parts(body, delimiter, pos)| * (|delimiter| + 6) <= |body|
    decreases |body| - pos
  {
    match Next(body, delimiter, pos)
    case None =>
      assert |Parts(body, delimiter, pos)| == 0;
    case Some(span) =>
      PartCount(body, delimiter, span.contentEnd);
      OneMore(|Parts(body, delimiter, span.contentEnd)|, |delimiter| + 6, pos, span.contentEnd, |body|);
  }

  // --- Round trip ---------------------------------------------------------

  /** An encoded part in front of `rest`. */
  function EncodePart(part: Part, delimiter: seq<byte>, rest: seq<byte>): seq<byte> {
    delimiter + (CRLF + (part.headers + (BLANK_LINE + (part.content + (CRLF + rest)))))
  }

  /** A multipart body (section 5.1.1 of RFC 2046): each part behind a delimiter line, the
      closing delimiter, and whatever bytes follow it. */
  function Encode(parts: seq<Part>, delimiter: seq<byte>, epilogue: seq<byte>): seq<byte> {
    if parts == [] then delimiter + (DASHES + epilogue)
    else EncodePart(parts[0], delimiter, Encode(parts[1..], delimiter, epilogue))
  }

  /** What the scanner makes of a part: the blank line stays in the header block, and the
      line end that belongs to the next delimiter stays in the content. */
  function AsScanned(part: Part): Part {
    Part(part.headers + BLANK_LINE, part.content + CRLF)
  }

  function AllAsScanned(parts: seq<Part>): (r: seq<Part>)
    ensures |r| == |parts|
    ensures forall k :: 0 <= k < |parts| ==> r[k] == AsScanned(parts[k])
  {
    seq(|parts|, k requires 0 <= k < |parts| => AsScanned(parts[k]))
  }

  predicate EndsLine(s: seq<byte>) {
    |s| >= 2 && s[|s| - 2..] == CRLF
  }

  ghost predicate Encodable(part: Part, delimiter: seq<byte>) {
    && !Occurs(part.headers, BLANK_LINE)
    && !EndsLine(part.headers)
    && !Occurs(part.content, delimiter)
  }

  predicate NoLineEnds(boundary: seq<byte>) {
    CR !in boundary && LF !in boundary
  }

  lemma BlankLineAt(s: seq<byte>, i: nat)
    ensures At(s, BLANK_LINE, i)
      <==> i + 4 <= |s| && s[i] == CR && s[i + 1] == LF && s[i + 2] == CR && s[i + 3] == LF
  {
    if At(s, BLANK_LINE, i) {
      assert s[i + 0] == BLANK_LINE[0] && s[i + 1] == BLANK_LINE[1] && s[i + 2] == BLANK_LINE[2] && s[i + 3] == BLANK_LINE[3];
    }
  }

  /** A blank line cannot start inside a header block and finish in its own terminator,
      except after a trailing line end. */
  lemma NoBlankLineBefore(t: seq<byte>, headers: seq<byte>, i: nat)
    requires headers + BLANK_LINE <= t && i < |headers|
    requires !Occurs(headers, BLANK_LINE) && !EndsLine(headers)
    ensures !At(t, BLANK_LINE, i)
  {
    var n := |headers|;
    assert forall k :: 0 <= k < n + 4 ==> t[k] == (headers + BLANK_LINE)[k];
    BlankLineAt(t, i);
    if i + 4 <= n {
      BlankLineAt(headers, i);
      assert !At(headers, BLANK_LINE, i);
    } else if i + 2 == n {
      assert headers[n - 2..] == [headers[i], headers[i + 1]];
    } else {
      assert t[n] == CR && t[n + 2] == CR;
    }
  }

  lemma Drop(s: seq<byte>, from: nat, front: seq<byte>, back: seq<byte>)
    requires from <= |s| && s[from..] == front + back
    ensures from + |front| <= |s| && s[from..from + |front|] == front && s[from + |front|..] == back
  {
  }

  lemma StartsHere(s: seq<byte>, from: nat, pattern: seq<byte>)
    requires pattern != [] && from <= |s| && pattern <= s[from..]
    ensures At(s, pattern, from) && FoundAt(s, pattern, from, from)
  {
  }

  lemma HeaderEnds(s: seq<byte>, from: nat, headers: seq<byte>, rest: seq<byte>)
    requires from <= |s| && s[from..] == headers + (BLANK_LINE + rest)
    requires !Occurs(headers, BLANK_LINE) && !EndsLine(headers)
    ensures FoundAt(s, BLANK_LINE, from, from + |headers|)
  {
    var n := |headers|;
    var t := s[from..];
    Drop(s, from, headers, BLANK_LINE + rest);
    StartsHere(s, from + n, BLANK_LINE);
    assert t == headers + BLANK_LINE + rest;
    forall j | from <= j < from + n ensures !At(s, BLANK_LINE, j) {
      NoBlankLineBefore(t, headers, j - from);
      BlankLineAt(t, j - from);
      BlankLineAt(s, j);
    }
    FirstIsUnique(s, BLANK_LINE, from, Some(from + n));
  }

  /** A delimiter without CR or LF cannot straddle the line end in front of it. */
  lemma NoDelimiterBefore(t: seq<byte>, content: seq<byte>, delimiter: seq<byte>, i: nat)
    requires delimiter != [] && NoLineEnds(delimiter)
    requires content + CRLF <= t && i < |content| + 2
    requires !Occurs(content, delimiter)
    ensures !At(t, delimiter, i)
  {
    var n := |content|;
    assert forall k :: 0 <= k < n + 2 ==> t[k] == (content + CRLF)[k];
    if i + |delimiter| <= n {
      assert !At(content, delimiter, i);
      var k :| 0 <= k < |delimiter| && content[i + k] != delimiter[k];
      assert t[i + k] != delimiter[k];
    } else {
      var m := if i > n then i else n;
      assert t[m] == CRLF[m - n] && t[m] in CRLF;
      assert delimiter[m - i] in delimiter;
      assert t[i + (m - i)] != delimiter[m - i];
    }
  }

  lemma ContentEnds(s: seq<byte>, from: nat, content: seq<byte>, delimiter: seq<byte>, rest: seq<byte>)
    requires delimiter != [] && NoLineEnds(delimiter) && delimiter <= rest
    requires from <= |s| && s[from..] == content + CRLF + rest
    requires !Occurs(content, delimiter)
    ensures FoundAt(s, delimiter, from, from + |content| + 2)
  {
    var n := |content| + 2;
    var t := s[from..];
    Drop(s, from, content + CRLF, rest);
    StartsHere(s, from + n, delimiter);
    forall j | from <= j < from + n ensures !At(s, delimiter, j) {
      NoDelimiterBefore(t, content, delimiter, j - from);
      SameAt(s, from, delimiter, j - from);
    }
    FirstIsUnique(s, delimiter, from, Some(from + n));
  }

  lemma SameAt(s: seq<byte>, from: nat, pattern: seq<byte>, i: nat)
    requires from <= |s|
    ensures At(s[from..], pattern, i) <==> At(s, pattern, from + i)
  {
  }

  /** Where an encoded part at `pos` lies. */
  function SpanOf(part: Part, delimiter: seq<byte>, pos: nat): Span {
    var headerStart := pos + |delimiter| + 2;
    var contentStart := headerStart + |part.headers| + 4;
    Span(headerStart, contentStart, contentStart + |part.content| + 2)
  }

  lemma Layout(body: seq<byte>, delimiter: seq<byte>, pos: nat, part: Part, rest: seq<byte>)
    requires pos <= |body| && body[pos..] == EncodePart(part, delimiter, rest)
    ensures var span := SpanOf(part, delimiter, pos);
      && InBounds(body, span)
      && delimiter <= body[pos..]
      && body[span.headerStart..] == part.headers + (BLANK_LINE + (part.content + (CRLF + rest)))
      && body[span.contentStart..] == part.content + CRLF + rest
      && Cut(body, span) == AsScanned(part)
      && body[span.contentEnd..] == rest
  {
  }

  lemma NextIs(body: seq<byte>, delimiter: seq<byte>, pos: nat, span: Span)
    requires FoundAt(body, delimiter, pos, pos)
    requires span.headerStart == pos + |delimiter| + 2
    requires FoundAt(body, BLANK_LINE, span.headerStart, span.contentStart - 4)
    requires FoundAt(body, delimiter, span.contentStart, span.contentEnd)
    ensures Next(body, delimiter, pos) == Some(span)
  {
  }

  /** One turn of the scanner at an encoded part finds exactly that part. */
  lemma NextEncoded(body: seq<byte>, delimiter: seq<byte>, pos: nat, part: Part, rest: seq<byte>)
    requires delimiter != [] && NoLineEnds(delimiter) && delimiter <= rest
    requires Encodable(part, delimiter)
    requires pos <= |body| && body[pos..] == EncodePart(part, delimiter, rest)
    ensures Next(body, delimiter, pos) == Some(SpanOf(part, delimiter, pos))
  {
    var span := SpanOf(part, delimiter, pos);
    Layout(body, delimiter, pos, part, rest);
    StartsHere(body, pos, delimiter);
    HeaderEnds(body, span.headerStart, part.headers, part.content + (CRLF + rest));
    ContentEnds(body, span.contentStart, part.content, delimiter, rest);
    NextIs(body, delimiter, pos, span);
  }

  /** At the closing delimiter the scanner goes on only if a blank line follows it. */
  lemma NextAtClose(body: seq<byte>, delimiter: seq<byte>, pos: nat, epilogue: seq<byte>)
    requires delimiter != [] && pos <= |body| && body[pos..] == delimiter + (DASHES + epilogue)
    ensures Next(body, delimiter, pos).None? <==> !Occurs(epilogue, BLANK_LINE)
  {
    var start := pos + |delimiter| + 2;
    StartsHere(body, pos, delimiter);
    Drop(body, pos, delimiter, DASHES + epilogue);
    Drop(body, pos + |delimiter|, DASHES, epilogue);
    forall i: nat ensures At(epilogue, BLANK_LINE, i) <==> At(body, BLANK_LINE, start + i) {
      SameAt(body, start, BLANK_LINE, i);
    }
    forall j | start <= j < |body| ensures At(body, BLANK_LINE, j) <==> At(epilogue, BLANK_LINE, j - start) {
      SameAt(body, start, BLANK_LINE, j - start);
    }
  }

  lemma SameHead(parts: seq<Part>, rest: seq<Part>)
    requires parts != []
    ensures [AsScanned(parts[0])] + rest == AllAsScanned(parts) <==> rest == AllAsScanned(parts[1..])
  {
  }

  lemma {:induction false} ScanEncoded(body: seq<byte>, delimiter: seq<byte>, pos: nat, parts: seq<Part>, epilogue: seq<byte>)
    requires delimiter != [] && NoLineEnds(delimiter)
    requires pos <= |body| && body[pos..] == Encode(parts, delimiter, epilogue)
    requires forall k :: 0 <= k < |parts| ==> Encodable(parts[k], delimiter)
    ensures Parts(body, delimiter, pos) == AllAsScanned(parts) <==> !Occurs(epilogue, BLANK_LINE)
    decreases |parts|
  {
    if parts == [] {
      NextAtClose(body, delimiter, pos, epilogue);
    } else {
      NextEncoded(body, delimiter, pos, parts[0], Encode(parts[1..], delimiter, epilogue));
      Layout(body, delimiter, pos, parts[0], Encode(parts[1..], delimiter, epilogue));
      var span := SpanOf(parts[0], delimiter, pos);
      ScanEncoded(body, delimiter, span.contentEnd, parts[1..], epilogue);
      SameHead(parts, Parts(body, delimiter, span.contentEnd));
    }
  }

  /** If the first blank line of a block is its last four bytes, the rest was encodable. */
  lemma HeadersWereClean(headers: seq<byte>)
    requires forall i :: 0 <= i < |headers| ==> !At(headers + BLANK_LINE, BLANK_LINE, i)
    ensures !Occurs(headers, BLANK_LINE) && !EndsLine(headers)
  {
    var n := |headers|;
    var t := headers + BLANK_LINE;
    forall i: nat ensures !At(headers, BLANK_LINE, i) {
      BlankLineAt(headers, i);
      BlankLineAt(t, i);
      assert i < n ==> !At(t, BLANK_LINE, i);
    }
    if n >= 2 {
      BlankLineAt(t, n - 2);
      assert !At(t, BLANK_LINE, n - 2);
      assert headers[n - 2..] == [headers[n - 2], headers[n - 1]];
    }
  }

  lemma NoneBeforeEnd(s: seq<byte>, start: nat, end: nat)
    requires start + 4 <= end <= |s| && IsFirst(s, BLANK_LINE, start, Some(end - 4))
    ensures forall i :: 0 <= i < end - start - 4 ==> !At(s[start..end], BLANK_LINE, i)
  {
    forall i | 0 <= i < end - start - 4 ensures !At(s[start..end], BLANK_LINE, i) {
      BlankLineAt(s[start..end], i);
      BlankLineAt(s, start + i);
      assert !At(s, BLANK_LINE, start + i);
    }
  }

  lemma WellCutIsEncodable(body: seq<byte>, delimiter: seq<byte>, from: nat, span: Span, part: Part)
    requires WellCut(body, delimiter, from, span) && Cut(body, span) == AsScanned(part)
    ensures Encodable(part, delimiter)
  {
    NoneBeforeEnd(body, span.headerStart, span.contentStart);
    HeadersWereClean(part.headers);
    forall i | 0 <= i ensures At(part.content, delimiter, i) ==> At(part.content + CRLF, delimiter, i) {
    }
  }

  /** A part that is not encodable can never come out of the scanner whole. */
  lemma ScannedIsEncodable(body: seq<byte>, delimiter: seq<byte>, k: nat, part: Part)
    requires delimiter != [] && k < |Parts(body, delimiter, 0)|
    requires Parts(body, delimiter, 0)[k] == AsScanned(part)
    ensures Encodable(part, delimiter)
  {
    var spans := Spans(body, delimiter, 0);
    SameCount(body, delimiter, 0);
    ScanIsWellCut(body, delimiter, 0, k);
    WellCutIsEncodable(body, delimiter, if k == 0 then 0 else spans[k - 1].contentEnd, spans[k], part);
  }

  /** The scanner inverts the encoder on a part list exactly when every part is encodable
      and no blank line follows the closing delimiter. */
  lemma RoundTrip(boundary: seq<byte>, parts: seq<Part>, epilogue: seq<byte>)
    requires NoLineEnds(boundary)
    ensures var delimiter := DASHES + boundary;
      Parts(Encode(parts, delimiter, epilogue), delimiter, 0) == AllAsScanned(parts)
      <==> (forall k :: 0 <= k < |parts| ==> Encodable(parts[k], delimiter)) && !Occurs(epilogue, BLANK_LINE)
  {
    var delimiter := DASHES + boundary;
    var body := Encode(parts, delimiter, epilogue);
    if forall k :: 0 <= k < |parts| ==> Encodable(parts[k], delimiter) {
      assert body[0..] == body;
      ScanEncoded(body, delimiter, 0, parts, epilogue);
    } else if Parts(body, delimiter, 0) == AllAsScanned(parts) {
      var k :| 0 <= k < |parts| && !Encodable(parts[k], delimiter);
      assert AllAsScanned(parts)[k] == AsScanned(parts[k]);
      ScannedIsEncodable(body, delimiter, k, parts[k]);
    }
  }
}
