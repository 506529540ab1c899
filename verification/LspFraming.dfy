/** The byte stream between the editor and its language server, cut into messages. */
module LspFraming {
  import opened Wrappers
  import FreshNames

  type Byte = b: int | 0 <= b < 256
  type Bytes = seq<Byte>

  const HEADER_LIMIT := 8192
  const FRAME_LIMIT := 16 * 1024 * 1024
  const NAME := "content-length:"

  predicate SeparatorAt(b: Bytes, i: nat)
  {
    i + 4 <= |b| && b[i] == 13 && b[i + 1] == 10 && b[i + 2] == 13 && b[i + 3] == 10
  }

  /** The position of the first blank line at or after `from`. */
  function Separator(b: Bytes, from: nat): (r: Option<nat>)
    requires from <= |b|
    ensures r.Some? ==> from <= r.value && SeparatorAt(b, r.value)
    ensures r.Some? ==> forall i | from <= i < r.value :: !SeparatorAt(b, i)
    ensures r.None? ==> forall i | from <= i :: !SeparatorAt(b, i)
    decreases |b| - from
  {
    if SeparatorAt(b, from) then Some(from)
    else if from == |b| then None
    else Separator(b, from + 1)
  }

  /** ASCII decoding drops the high bit. */
  function Ascii(b: Bytes): (s: string)
    ensures |s| == |b|
  {
    seq(|b|, i requires 0 <= i < |b| => (b[i] % 128) as char)
  }

  function Lower(c: char): char
  {
    if 'A' <= c <= 'Z' then (c as int + 32) as char else c
  }

  predicate IsSpace(c: char) { c == ' ' || '\t' <= c <= '\r' }

  predicate IsDigit(c: char) { '0' <= c <= '9' }

  predicate EndsLine(c: char) { c == '\n' || c == '\r' }

  /** The first position from `from` on whose character does not satisfy `p`. */
  function Past(h: string, from: nat, p: char -> bool): (r: nat)
    requires from <= |h|
    ensures from <= r <= |h| && (r < |h| ==> !p(h[r]))
    ensures forall k | from <= k < r :: p(h[k])
    decreases |h| - from
  {
    if from < |h| && p(h[from]) then Past(h, from + 1, p) else from
  }

  predicate NameAt(h: string, i: nat)
  {
    && (i == 0 || (i <= |h| && EndsLine(h[i - 1])))
    && i + |NAME| <= |h| && forall k | 0 <= k < |NAME| :: Lower(h[i + k]) == NAME[k]
  }

  /** A line that starts at `i` gives a length in the digits from `d` up to `e`. */
  ghost predicate LengthAt(h: string, i: nat, d: nat, e: nat)
  {
    && NameAt(h, i) && i + |NAME| <= d < e <= |h|
    && (forall k | i + |NAME| <= k < d :: IsSpace(h[k]))
    && (forall k | d <= k < e :: IsDigit(h[k]))
    && (e < |h| ==> EndsLine(h[e]))
  }

  /** The length given by the first line of the header, from `from` on, that has one. */
  function ContentLength(h: string, from: nat): (r: Option<nat>)
    requires from <= |h|
    decreases |h| - from
  {
    if NameAt(h, from) then
      var d := Past(h, from + |NAME|, IsSpace);
      var e := Past(h, d, IsDigit);
      if d < e && (e == |h| || EndsLine(h[e])) then Some(FreshNames.Value(h[d..e]))
      else ContentLength(h, from + 1)
    else if from < |h| then ContentLength(h, from + 1)
    else None
  }

  /** The digits of a line are determined. */
  lemma DigitsOfLine(h: string, i: nat, d: nat, e: nat)
    requires LengthAt(h, i, d, e)
    ensures d == Past(h, i + |NAME|, IsSpace) && e == Past(h, d, IsDigit)
  {
    SpanEnds(h, i + |NAME|, d, IsSpace);
    SpanEnds(h, d, e, IsDigit);
  }

  ghost predicate NoLengthIn(h: string, from: nat, to: nat)
  {
    forall i: nat, d: nat, e: nat | from <= i < to :: !LengthAt(h, i, d, e)
  }

  /** The search finds the first line that gives a length. */
  lemma {:induction false} ContentLengthIsFirst(h: string, from: nat) returns (i: nat, d: nat, e: nat)
    requires from <= |h|
    ensures ContentLength(h, from).None? ==> NoLengthIn(h, from, |h| + 1)
    ensures ContentLength(h, from).Some? ==>
              && from <= i && LengthAt(h, i, d, e) && NoLengthIn(h, from, i)
              && ContentLength(h, from) == Some(FreshNames.Value(h[d..e]))
    decreases |h| - from
  {
    i, d, e := from, from, from;
    if NameAt(h, from) {
      d := Past(h, from + |NAME|, IsSpace);
      e := Past(h, d, IsDigit);
      if d < e && (e == |h| || EndsLine(h[e])) { return; }
    }
    NoLengthHere(h, from);
    if from < |h| {
      i, d, e := ContentLengthIsFirst(h, from + 1);
      NoLengthJoins(h, from, if ContentLength(h, from).None? then |h| + 1 else i);
    }
  }

  lemma NoLengthJoins(h: string, from: nat, to: nat)
    requires from < to && NoLengthIn(h, from, from + 1) && NoLengthIn(h, from + 1, to)
    ensures NoLengthIn(h, from, to)
  {
  }

  lemma NoLengthHere(h: string, from: nat)
    requires from <= |h|
    requires NameAt(h, from) ==>
               var d := Past(h, from + |NAME|, IsSpace);
               var e := Past(h, d, IsDigit);
               d == e || (e < |h| && !EndsLine(h[e]))
    ensures NoLengthIn(h, from, from + 1)
  {
    forall x: nat, y: nat | LengthAt(h, from, x, y) ensures false { DigitsOfLine(h, from, x, y); }
  }

  lemma {:induction false} SpanEnds(h: string, from: nat, to: nat, p: char -> bool)
    requires from <= to <= |h| && (forall k | from <= k < to :: p(h[k])) && (to < |h| ==> !p(h[to]))
    ensures Past(h, from, p) == to
    decreases |h| - from
  {
    if from < to { SpanEnds(h, from + 1, to, p); }
  }

  datatype Look =
    | More                        // wait for bytes
    | Skip(next: nat)             // a header without a length
    | Body(start: nat, end: nat)
    | HeaderTooLong
    | FrameTooBig

  /** What one pass of the decoder's loop finds at the front of its buffer. */
  function LookAt(b: Bytes): (r: Look)
    ensures r.Skip? ==> 0 < r.next <= |b|
    ensures r.Body? ==> 0 < r.start <= r.end <= |b|
  {
    var separator := Separator(b, 0);
    if separator.None? then (if |b| > HEADER_LIMIT then HeaderTooLong else More)
    else
      var start := separator.value + 4;
      match ContentLength(Ascii(b[..separator.value]), 0)
      case None => Skip(start)
      case Some(length) =>
        if length > FRAME_LIMIT then FrameTooBig
        else if |b| < start + length then More
        else Body(start, start + length)
  }

  /** The bodies delivered, the bytes kept, and whether the stream is given up. */
  datatype Delivery = Delivery(bodies: seq<Bytes>, rest: Bytes, failed: bool)

  /** What is delivered after `bodies`. */
  function Then(bodies: seq<Bytes>, d: Delivery): Delivery
  {
    d.(bodies := bodies + d.bodies)
  }

  lemma ThenThen(a: seq<Bytes>, b: seq<Bytes>, d: Delivery)
    ensures Then(a, Then(b, d)) == Then(a + b, d)
  {
    assert a + (b + d.bodies) == a + b + d.bodies;
  }

  /** What the decoder's loop makes of its buffer. */
  function Drain(b: Bytes): Delivery
    decreases |b|
  {
    match LookAt(b)
    case More => Delivery([], b, false)
    case Skip(next) => Drain(b[next..])
    case Body(start, end) => Then([b[start..end]], Drain(b[end..]))
    case HeaderTooLong => Delivery([], [], true)
    case FrameTooBig => Delivery([], [], true)
  }

  lemma DrainSkips(b: Bytes, next: nat)
    requires LookAt(b) == Skip(next)
    ensures Drain(b) == Drain(b[next..])
  {
  }

  lemma DrainDelivers(bodies: seq<Bytes>, b: Bytes, start: nat, end: nat)
    requires LookAt(b) == Body(start, end)
    ensures Then(bodies, Drain(b)) == Then(bodies + [b[start..end]], Drain(b[end..]))
  {
    ThenThen(bodies, [b[start..end]], Drain(b[end..]));
  }

  const HEADER := "Content-Length: "

  function Coded(s: string): Bytes
  {
    seq(|s|, i requires 0 <= i < |s| => (s[i] as int) % 256)
  }

  function Framed(body: Bytes): Bytes
  {
    Coded(HEADER + FreshNames.Decimal(|body|) + "\r\n\r\n") + body
  }

  class Connection {
    var buffer: Bytes
    var stdin: Bytes

    constructor ()
      ensures buffer == stdin == []
    {
      buffer, stdin := [], [];
    }

    method Write(body: Bytes)
      modifies this`stdin
      ensures stdin == old(stdin) + Framed(body)
    {
      stdin := stdin + Coded(HEADER + FreshNames.Decimal(|body|) + "\r\n\r\n");
      stdin := stdin + body;
    }

    /** Appends a chunk and delivers what is complete; after a protocol failure the buffer is dropped. */
    method Consume(chunk: Bytes) returns (bodies: seq<Bytes>, failed: bool)
      modifies this`buffer
      ensures Delivery(bodies, buffer, failed) == Drain(old(buffer) + chunk)
    {
      buffer := buffer + chunk;
      ghost var whole := Drain(buffer);
      bodies, failed := [], false;
      var more := true;
      while more
        invariant whole == if more then Then(bodies, Drain(buffer)) else Delivery(bodies, buffer, failed)
        decreases |buffer|, more
      {
        more, bodies, failed := Advance(bodies);
      }
    }

    /** One round of the decoder's loop. */
    method Advance(before: seq<Bytes>) returns (more: bool, bodies: seq<Bytes>, failed: bool)
      modifies this`buffer
      ensures |buffer| <= |old(buffer)| && (more ==> |buffer| < |old(buffer)|)
      ensures more ==> Then(before, Drain(old(buffer))) == Then(bodies, Drain(buffer))
      ensures !more ==> Then(before, Drain(old(buffer))) == Delivery(bodies, buffer, failed)
    {
      bodies, failed, more := before, false, false;
      var separator := Separator(buffer, 0);
      if separator.None? {
        failed := |buffer| > HEADER_LIMIT;
        if failed { buffer := []; }
        return;
      }
      var length := ContentLength(Ascii(buffer[..separator.value]), 0);
      if length.None? {
        DrainSkips(buffer, separator.value + 4);
        buffer := buffer[separator.value + 4..];
        more := true;
        return;
      }
      var bodyStart := separator.value + 4;
      if length.value > FRAME_LIMIT {
        buffer := [];
        failed := true;
        return;
      }
      var bodyEnd := bodyStart + length.value;
      if |buffer| < bodyEnd { return; }
      DrainDelivers(before, buffer, bodyStart, bodyEnd);
      bodies := bodies + [buffer[bodyStart..bodyEnd]];
      buffer := buffer[bodyEnd..];
      more := true;
    }
  }

  // Independence of the cuts.

  /** A found blank line stays the first one when bytes are appended. */
  lemma SeparatorStays(b: Bytes, more: Bytes)
    requires Separator(b, 0).Some?
    ensures Separator(b + more, 0) == Separator(b, 0)
  {
    var i := Separator(b, 0).value;
    assert SeparatorAt(b + more, i);
    forall k | 0 <= k < i ensures !SeparatorAt(b + more, k) {
      assert !SeparatorAt(b, k);
    }
  }

  lemma LookStays(b: Bytes, more: Bytes)
    requires LookAt(b) != More && LookAt(b) != HeaderTooLong
    ensures LookAt(b + more) == LookAt(b)
  {
    SeparatorStays(b, more);
    var i := Separator(b, 0).value;
    assert (b + more)[..i] == b[..i];
  }

  /** Draining in two instalments delivers what draining at once delivers. */
  lemma {:induction false} DrainAppend(b: Bytes, more: Bytes)
    requires !Drain(b).failed
    ensures Drain(b + more) == Then(Drain(b).bodies, Drain(Drain(b).rest + more))
    decreases |b|
  {
    match LookAt(b)
    case More =>
    case Skip(next) =>
      SkipAppend(b, more);
      DrainAppend(b[next..], more);
    case Body(start, end) =>
      BodyAppend(b, more);
      DrainAppend(b[end..], more);
      ThenThen([b[start..end]], Drain(b[end..]).bodies, Drain(Drain(b).rest + more));
  }

  lemma SkipAppend(b: Bytes, more: Bytes)
    requires LookAt(b).Skip?
    ensures Drain(b + more) == Drain(b[LookAt(b).next..] + more)
  {
    LookStays(b, more);
    assert (b + more)[LookAt(b).next..] == b[LookAt(b).next..] + more;
  }

  lemma BodyAppend(b: Bytes, more: Bytes)
    requires LookAt(b).Body?
    ensures Drain(b + more) == Then([b[LookAt(b).start..LookAt(b).end]], Drain(b[LookAt(b).end..] + more))
  {
    var start, end := LookAt(b).start, LookAt(b).end;
    LookStays(b, more);
    assert (b + more)[start..end] == b[start..end];
    assert (b + more)[end..] == b[end..] + more;
  }

  function Concat(chunks: seq<Bytes>): Bytes
  {
    if chunks == [] then [] else Concat(chunks[..|chunks| - 1]) + chunks[|chunks| - 1]
  }

  /** The decoder after a list of chunks; a failed stream stays failed. */
  function Feed(chunks: seq<Bytes>): Delivery
  {
    if chunks == [] then Delivery([], [], false)
    else
      var before := Feed(chunks[..|chunks| - 1]);
      if before.failed then before
      else
        Then(before.bodies, Drain(before.rest + chunks[|chunks| - 1]))
  }

  /** Neither limit can trip, however the stream is cut. */
  predicate Moderate(b: Bytes)
    decreases |b|
  {
    var separator := Separator(b, 0);
    if separator.None? then |b| <= HEADER_LIMIT
    else
      && separator.value + 3 <= HEADER_LIMIT
      && match LookAt(b)
         case More => true
         case Skip(next) => Moderate(b[next..])
         case Body(_, end) => Moderate(b[end..])
         case _ => false
  }

  lemma SeparatorPrefix(b: Bytes, k: nat)
    requires k <= |b|
    ensures var r := Separator(b, 0);
            Separator(b[..k], 0) == if r.Some? && r.value + 4 <= k then r else None
  {
    forall i: nat ensures SeparatorAt(b[..k], i) <==> i + 4 <= k && SeparatorAt(b, i) { }
    if Separator(b, 0).Some? && Separator(b, 0).value + 4 <= k { assert SeparatorAt(b[..k], Separator(b, 0).value); }
  }

  /** A pass that finds something whole finds it in every prefix that contains it. */
  lemma LookPrefix(b: Bytes, k: nat)
    requires k <= |b|
    ensures LookAt(b).Skip? && LookAt(b).next <= k ==> LookAt(b[..k]) == LookAt(b)
    ensures LookAt(b).Body? && LookAt(b).end <= k ==> LookAt(b[..k]) == LookAt(b)
    ensures Moderate(b) && (LookAt(b).Skip? ==> k < LookAt(b).next) && (LookAt(b).Body? ==> k < LookAt(b).end) ==>
              LookAt(b[..k]) == More
  {
    SeparatorPrefix(b, k);
    if Separator(b, 0).Some? && Separator(b, 0).value + 4 <= k {
      var i := Separator(b, 0).value;
      assert b[..k][..i] == b[..i];
    }
  }

  lemma {:induction false} ModeratePrefix(b: Bytes, k: nat)
    requires Moderate(b) && k <= |b|
    ensures Moderate(b[..k]) && !Drain(b[..k]).failed
    decreases |b|
  {
    LookPrefix(b, k);
    SeparatorPrefix(b, k);
    match LookAt(b)
    case Skip(next) =>
      if next <= k {
        assert b[..k][next..] == b[next..][..k - next];
        ModeratePrefix(b[next..], k - next);
      }
    case Body(_, end) =>
      if end <= k {
        assert b[..k][end..] == b[end..][..k - end];
        ModeratePrefix(b[end..], k - end);
      }
    case _ =>
  }

  predicate Lives(b: Bytes) { !Drain(b).failed }

  ghost predicate NoPrefixFails(b: Bytes)
  {
    forall c: Bytes | c <= b :: Lives(c)
  }

  /** Draining a buffer whose first pass consumes `n` bytes fails exactly when draining the rest does. */
  lemma LivesAfter(b: Bytes, n: nat, c: Bytes)
    requires n <= |b| && (LookAt(b) == Skip(n) || (LookAt(b).Body? && LookAt(b).end == n))
    ensures Lives(b[..n] + c) <==> Lives(c)
  {
    LookPrefix(b, n);
    LookStays(b[..n], c);
    assert (b[..n] + c)[n..] == c;
  }

  lemma NoPrefixFailsAfter(b: Bytes, n: nat)
    requires n <= |b| && (LookAt(b) == Skip(n) || (LookAt(b).Body? && LookAt(b).end == n))
    requires NoPrefixFails(b)
    ensures NoPrefixFails(b[n..])
  {
    forall c: Bytes | c <= b[n..] ensures Lives(c) {
      LivesAfter(b, n, c);
      assert b[..n] + c <= b;
    }
  }

  lemma FrontIsModerate(b: Bytes)
    requires NoPrefixFails(b)
    ensures LookAt(b) != HeaderTooLong && LookAt(b) != FrameTooBig
    ensures Separator(b, 0).Some? ==> Separator(b, 0).value + 3 <= HEADER_LIMIT
  {
    assert Lives(b);
    var separator := Separator(b, 0);
    if separator.Some? {
      SeparatorPrefix(b, separator.value + 3);
      assert Lives(b[..separator.value + 3]);
    }
  }

  lemma {:induction false} NoPrefixFailsModerate(b: Bytes)
    requires NoPrefixFails(b)
    ensures Moderate(b)
    decreases |b|
  {
    FrontIsModerate(b);
    match LookAt(b)
    case Skip(next) =>
      NoPrefixFailsAfter(b, next);
      NoPrefixFailsModerate(b[next..]);
    case Body(_, end) =>
      NoPrefixFailsAfter(b, end);
      NoPrefixFailsModerate(b[end..]);
    case _ =>
  }

  /** However a moderate stream is cut, the same bodies are delivered. */
  lemma {:induction false} CutsDoNotMatter(chunks: seq<Bytes>)
    requires Moderate(Concat(chunks))
    ensures Feed(chunks) == Drain(Concat(chunks)) && !Feed(chunks).failed
    decreases |chunks|
  {
    if chunks != [] {
      var before, last := chunks[..|chunks| - 1], chunks[|chunks| - 1];
      assert Concat(chunks)[..|Concat(before)|] == Concat(before);
      ModeratePrefix(Concat(chunks), |Concat(before)|);
      CutsDoNotMatter(before);
      DrainAppend(Concat(before), last);
      assert Concat(chunks)[..|Concat(chunks)|] == Concat(chunks);
      ModeratePrefix(Concat(chunks), |Concat(chunks)|);
    }
  }

  function Singles(b: Bytes): seq<Bytes>
  {
    seq(|b|, i requires 0 <= i < |b| => [b[i]])
  }

  lemma SinglesLast(b: Bytes)
    requires b != []
    ensures var last := |b| - 1;
            && Singles(b)[..last] == Singles(b[..last]) && Singles(b)[last] == [b[last]]
            && b == b[..last] + [b[last]]
  {
  }

  lemma NoPrefixFailsLast(b: Bytes)
    requires b != [] && NoPrefixFails(b[..|b| - 1]) && Lives(b)
    ensures NoPrefixFails(b)
  {
    forall c: Bytes | c <= b ensures Lives(c) {
      if c != b { assert c <= b[..|b| - 1]; }
    }
  }

  lemma {:induction false} BytewiseDrains(b: Bytes)
    requires !Feed(Singles(b)).failed
    ensures Feed(Singles(b)) == Drain(b) && NoPrefixFails(b)
    decreases |b|
  {
    if b != [] {
      SinglesLast(b);
      BytewiseDrains(b[..|b| - 1]);
      DrainAppend(b[..|b| - 1], [b[|b| - 1]]);
      NoPrefixFailsLast(b);
    }
  }

  /** A stream that is not moderate is given up when its bytes arrive one by one: the condition is exact. */
  lemma ModerateIsExact(b: Bytes)
    ensures Moderate(b) <==> !Feed(Singles(b)).failed
  {
    if !Feed(Singles(b)).failed {
      BytewiseDrains(b);
      NoPrefixFailsModerate(b);
    }
    if Moderate(b) {
      SinglesConcat(b);
      CutsDoNotMatter(Singles(b));
    }
  }

  lemma {:induction false} SinglesConcat(b: Bytes)
    ensures Concat(Singles(b)) == b
    decreases |b|
  {
    if b != [] {
      SinglesLast(b);
      SinglesConcat(b[..|b| - 1]);
    }
  }

  // Round trip.

  lemma {:induction false} DecimalShape(n: nat, size: nat)
    requires n < Power10(size)
    ensures 1 <= |FreshNames.Decimal(n)| <= (if size == 0 then 1 else size)
    ensures forall k | 0 <= k < |FreshNames.Decimal(n)| :: IsDigit(FreshNames.Decimal(n)[k])
  {
    if n >= 10 { DecimalShape(n / 10, size - 1); }
  }

  function Power10(k: nat): nat
  {
    if k == 0 then 1 else 10 * Power10(k - 1)
  }

  function HeaderOf(n: nat): string { HEADER + FreshNames.Decimal(n) }

  lemma HeaderChars(n: nat)
    requires n <= FRAME_LIMIT
    ensures var h := HeaderOf(n); 17 <= |h| <= 24 && h[..16] == HEADER && h[16..] == FreshNames.Decimal(n)
    ensures var h := HeaderOf(n); forall k | 16 <= k < |h| :: IsDigit(h[k])
    ensures forall k | 0 <= k < |HeaderOf(n)| :: HeaderOf(n)[k] < 128 as char && HeaderOf(n)[k] != '\r'
  {
    assert Power10(8) == 100000000;
    DecimalShape(n, 8);
    assert forall k | 16 <= k < |HeaderOf(n)| :: HeaderOf(n)[k] == FreshNames.Decimal(n)[k - 16];
  }

  lemma NameIsAtFront(h: string)
    requires |h| >= 16 && h[..16] == HEADER
    ensures NameAt(h, 0) && h[15] == ' '
  {
    assert forall k | 0 <= k < 16 :: h[k] == HEADER[k];
  }

  lemma HeaderLength(n: nat)
    requires n <= FRAME_LIMIT
    ensures ContentLength(HeaderOf(n), 0) == Some(n)
  {
    var h := HeaderOf(n);
    HeaderChars(n);
    FreshNames.DecimalReadsBack(n);
    NameIsAtFront(h);
    SpanEnds(h, 15, 16, IsSpace);
    SpanEnds(h, 16, |h|, IsDigit);
    assert h[16..|h|] == h[16..];
  }

  /** The blank line of a frame is where its header ends, and its header reads as written. */
  lemma FramedSeparator(body: Bytes, more: Bytes)
    requires |body| <= FRAME_LIMIT
    ensures var h, b := HeaderOf(|body|), Framed(body) + more; Separator(b, 0) == Some(|h|) && Ascii(b[..|h|]) == h
  {
    var h, b := HeaderOf(|body|), Framed(body) + more;
    var code := Coded(h + "\r\n\r\n");
    HeaderChars(|body|);
    assert b == code + (body + more);
    CodedHeader(h, code, body + more);
  }

  lemma CodedHeader(h: string, code: Bytes, more: Bytes)
    requires forall k | 0 <= k < |h| :: h[k] < 128 as char && h[k] != '\r'
    requires code == Coded(h + "\r\n\r\n")
    ensures Separator(code + more, 0) == Some(|h|) && Ascii((code + more)[..|h|]) == h
  {
    var b := code + more;
    assert forall k | 0 <= k < |code| :: b[k] == code[k];
    forall k | 0 <= k < |h| ensures b[k] == h[k] as int && !SeparatorAt(b, k) { }
    assert SeparatorAt(b, |h|);
    assert Ascii(b[..|h|]) == h;
  }

  lemma FramedLook(body: Bytes, more: Bytes)
    requires |body| <= FRAME_LIMIT
    ensures var b, start := Framed(body) + more, |HeaderOf(|body|)| + 4;
            LookAt(b) == Body(start, start + |body|) && b[start..start + |body|] == body && b[start + |body|..] == more
    ensures Separator(Framed(body) + more, 0).Some? && Separator(Framed(body) + more, 0).value + 3 <= HEADER_LIMIT
  {
    HeaderChars(|body|);
    HeaderLength(|body|);
    FramedSeparator(body, more);
  }

  lemma FrameFirst(body: Bytes, more: Bytes)
    requires |body| <= FRAME_LIMIT
    ensures Drain(Framed(body) + more) == Then([body], Drain(more))
    ensures Moderate(Framed(body) + more) <==> Moderate(more)
  {
    FramedLook(body, more);
  }

  function FramedAll(bodies: seq<Bytes>): Bytes
  {
    if bodies == [] then [] else Framed(bodies[0]) + FramedAll(bodies[1..])
  }

  lemma {:induction false} FramesReadBack(bodies: seq<Bytes>)
    requires forall i | 0 <= i < |bodies| :: |bodies[i]| <= FRAME_LIMIT
    ensures Moderate(FramedAll(bodies)) && Drain(FramedAll(bodies)) == Delivery(bodies, [], false)
  {
    if bodies != [] {
      FrameFirst(bodies[0], FramedAll(bodies[1..]));
      FramesReadBack(bodies[1..]);
      assert [bodies[0]] + bodies[1..] == bodies;
    }
  }

  /** Framed bodies arrive as they were sent, in order, however the stream is cut. */
  lemma RoundTrip(bodies: seq<Bytes>, chunks: seq<Bytes>)
    requires forall i | 0 <= i < |bodies| :: |bodies[i]| <= FRAME_LIMIT
    requires Concat(chunks) == FramedAll(bodies)
    ensures Feed(chunks) == Delivery(bodies, [], false)
  {
    FramesReadBack(bodies);
    CutsDoNotMatter(chunks);
  }
}
