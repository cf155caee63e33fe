/** One bounded fetch: the redirect loop, the framing rules and the size limits of a body.
    What the network and the decompressor answer is arbitrary. */
module SourceReader {
  import opened PyValues
  import opened Utf8
  import opened GzipStream
  import opened ResponseHeaders

  // ---------- the body ----------

  /** What the peer sends before it closes the connection, or before the connection breaks
      inside the framing. How it is cut into reads is arbitrary. */
  datatype Peer = Peer(sent: Bytes, broken: bool, grain: nat -> nat)

  /** The counters a read reports, whether it succeeds or not. */
  class Observation {
    var framing: Option<Framing>
    var encoding: Option<Encoding>
    var received: nat
    var decoded: nat
    ghost var wire: Bytes

    constructor ()
      ensures framing == None && encoding == None && received == 0 && decoded == 0 && wire == []
    {
      framing, encoding, received, decoded, wire := None, None, 0, 0, [];
    }

    /** One read of at most `asked` bytes; it never asks for none. A read that asks for more
        than is left before the break raises with what it got. */
    method Receive(peer: Peer, k: nat, asked: nat) returns (chunk: Option<Bytes>)
      requires asked >= 1 && received == |wire| && wire <= peer.sent
      modifies this`received, this`wire
      ensures received == |wire| && old(wire) <= wire <= peer.sent && received <= old(received) + asked
      ensures chunk.None? ==> peer.broken && wire == peer.sent && received < old(received) + asked
      ensures chunk.Some? ==> wire == old(wire) + chunk.value
      ensures chunk == Some([]) ==> !peer.broken && wire == peer.sent
    {
      var left := |peer.sent| - received;
      var n := Least(Least(asked, left), peer.grain(k) + 1);
      var data := peer.sent[received..received + n];
      assert wire + data == peer.sent[..received + n];
      chunk := if peer.broken && n == left && asked > left then None else Some(data);
      received := received + n;
      wire := wire + data;
    }
  }

  /** The bytes of a complete message body: the declared number of them, or all there are. */
  function Delivered(length: Option<nat>, maxBytes: nat, peer: Peer): Option<Bytes> {
    match length
    case Some(n) => if n <= |peer.sent| then Some(peer.sent[..n]) else None
    case None => if !peer.broken && |peer.sent| <= maxBytes then Some(peer.sent) else None
  }

  function DecodedBody(encoding: Encoding, codec: Codec, wire: Bytes): Option<Bytes> {
    match encoding
    case Identity => Some(wire)
    case Gzip => if wire == [] then None else Contents(codec, wire)
    case Unsupported => None
  }

  /** The body a response has, if it has one within the limits; it does not depend on how the
      network cuts the bytes or how the decompressor buffers. */
  ghost function BodyOf(h: Headers, limits: Limits, codec: Codec, peer: Peer): Option<Bytes> {
    if HeaderError(h, limits).Some? then None
    else match Delivered(LengthIn(h), limits.maxResponseBytes, peer)
      case None => None
      case Some(wire) =>
        var body := DecodedBody(EncodingOf(h), codec, wire);
        if body.Some? && |body.value| <= limits.DecodedLimit() then body else None
  }

  /** Where the reader stands inside a gzip body: whole members done, one under way whose content
      has been given up to a point, and input that waits. */
  ghost predicate Stands(d: Decompressor, done: Bytes, shown: Bytes, seen: Bytes, waiting: Bytes, wire: Bytes,
      body: Bytes)
    reads d
  {
    && Lawful(d.codec) && Contents(d.codec, done) == Some(shown) && done + d.fed + waiting == wire
    && d.fed <= seen <= d.fed + waiting && (d.fed + waiting == [] ==> wire == [])
    && !d.codec(seen).Bad? && d.given <= |d.codec(seen).content| && body == shown + d.codec(seen).content[..d.given]
    && (if d.eof then d.codec(seen).Whole? && d.codec(seen).size == |d.fed| && d.given == |d.codec(seen).content|
        else d.codec(d.fed).Open?)
  }

  /** No way for the rest of the wire to make a body within the limit. */
  ghost predicate Hopeless(codec: Codec, wire: Bytes, limit: nat) {
    forall all | wire <= all :: Contents(codec, all).None? || |Contents(codec, all).value| > limit
  }

  lemma OpenAtFirst(codec: Codec)
    requires Lawful(codec)
    ensures codec([]) == Open([])
  {
  }

  lemma CorruptIsHopeless(codec: Codec, done: Bytes, input: Bytes, wire: Bytes, limit: nat)
    requires Lawful(codec) && Contents(codec, done).Some? && codec(input).Bad? && wire == done + input
    ensures Hopeless(codec, wire, limit)
  {
    hide Lawful;
    OpenAtFirst(codec);
    forall all | wire <= all ensures Contents(codec, all).None? {
      var more := all[|wire|..];
      assert all == done + (input + more);
      MoreInput(codec, input, input + more);
      ContentsSplit(codec, done, input + more);
    }
  }

  lemma TooLargeIsHopeless(codec: Codec, done: Bytes, input: Bytes, wire: Bytes, limit: nat)
    requires Lawful(codec) && Contents(codec, done).Some? && !codec(input).Bad? && input != [] && wire == done + input
    requires |Contents(codec, done).value| + |codec(input).content| > limit
    ensures Hopeless(codec, wire, limit)
  {
    hide Lawful;
    forall all | wire <= all && Contents(codec, all).Some? ensures |Contents(codec, all).value| > limit {
      var more := all[|wire|..];
      assert all == done + (input + more);
      ContentsSplit(codec, done, input + more);
      ShownContent(codec, input, more);
    }
  }

  lemma MemberJoins(codec: Codec, done: Bytes, member: Bytes, rest: Bytes)
    requires Lawful(codec) && Contents(codec, done).Some?
    requires codec(member + rest).Whole? && codec(member + rest).size == |member|
    ensures Contents(codec, done + member) == Some(Contents(codec, done).value + codec(member + rest).content)
  {
    hide Lawful, Contents;
    MemberEnds(codec, member, rest);
    OneMember(codec, member);
    ContentsSplit(codec, done, member);
  }

  /** At the end of the wire: the body is the content of its members exactly at a member's end. */
  lemma EndOfWire(d: Decompressor, done: Bytes, shown: Bytes, seen: Bytes, wire: Bytes, body: Bytes)
    requires Stands(d, done, shown, seen, [], wire, body)
    ensures DecodedBody(Gzip, d.codec, wire) == if d.eof then Some(body) else None
  {
    hide Lawful;
    assert done + d.fed == wire && seen == d.fed && d.fed + [] == d.fed;
    MoreInput(d.codec, seen, seen);
    if d.eof {
      MemberJoins(d.codec, done, d.fed, []);
      assert d.codec(seen).content[..d.given] == d.codec(seen).content;
    } else if wire != [] {
      ContentsSplit(d.codec, done, d.fed);
    }
  }

  lemma NothingStands(d: Decompressor)
    requires Lawful(d.codec) && d.fed == [] && d.given == 0 && !d.eof
    ensures Stands(d, [], [], [], [], [], [])
  {
    hide Lawful;
    OpenAtFirst(d.codec);
  }

  lemma MoreWire(d: Decompressor, done: Bytes, shown: Bytes, seen: Bytes, wire: Bytes, chunk: Bytes, body: Bytes)
    requires Stands(d, done, shown, seen, [], wire, body)
    ensures Stands(d, done, shown, seen, chunk, wire + chunk, body)
  {
    hide Lawful, Contents;
    assert done + d.fed + chunk == done + d.fed + [] + chunk;
  }

  /** At a member's end the member joins those that are done, and a fresh one begins. */
  lemma NextMember(d: Decompressor, done: Bytes, shown: Bytes, seen: Bytes, waiting: Bytes, wire: Bytes, body: Bytes,
      next: Decompressor) returns (done': Bytes)
    requires Stands(d, done, shown, seen, waiting, wire, body) && d.eof && waiting != []
    requires next.codec == d.codec && next.fed == [] && next.given == 0 && !next.eof
    ensures Stands(next, done', body, [], waiting, wire, body)
  {
    hide Lawful, Contents;
    done' := done + d.fed;
    var rest := seen[|d.fed|..];
    assert seen == d.fed + rest;
    MemberJoins(d.codec, done, d.fed, rest);
    assert d.codec(seen).content[..d.given] == d.codec(seen).content;
    OpenAtFirst(d.codec);
    assert done' + [] + waiting == done + d.fed + waiting;
    assert body + [] == body;
  }

  lemma BodyGrows(shown: Bytes, before: Bytes, content: Bytes, given: nat, now: nat, body: Bytes, decoded: Bytes)
    requires before <= content && given <= |before| && given <= now <= |content|
    requires body == shown + before[..given] && decoded == content[given..now]
    ensures body + decoded == shown + content[..now]
  {
    assert before[..given] == content[..given];
    assert content[..now] == content[..given] + decoded;
  }

  /** One call of the decompressor moves content from the wire to the body. */
  method InflateOnce(d: Decompressor, waiting: Bytes, cap: nat, habit: Habit, body: Bytes, limit: nat,
      ghost done: Bytes, ghost shown: Bytes, ghost seen: Bytes, ghost wire: Bytes)
    returns (decoded: Option<Bytes>, rest: Bytes)
    requires Stands(d, done, shown, seen, waiting, wire, body) && !d.eof && waiting != []
    requires |body| <= limit && cap == Least(65536, limit + 1 - |body|)
    modifies d
    ensures decoded.None? ==> Hopeless(d.codec, wire, limit)
    ensures decoded.Some? ==>
              && |decoded.value| <= cap && |rest| <= |waiting| && (decoded.value == [] ==> |rest| < |waiting|)
              && Stands(d, done, shown, d.fed + rest, rest, wire, body + decoded.value)
              && (|body + decoded.value| > limit ==> Hopeless(d.codec, wire, limit))
  {
    hide Lawful, Contents, Hopeless;
    var input := d.fed + waiting;
    assert done + input == wire;
    MoreInput(d.codec, seen, input);
    decoded, rest := d.Decompress(waiting, cap, habit);
    if decoded.None? {
      CorruptIsHopeless(d.codec, done, input, wire, limit);
    } else {
      assert done + d.fed + rest == done + (d.fed + rest);
      BodyGrows(shown, d.codec(seen).content, d.codec(input).content, old(d.given), d.given, body, decoded.value);
      if |body + decoded.value| > limit {
        TooLargeIsHopeless(d.codec, done, input, wire, limit);
      }
    }
  }

  /** The whole message body that arrives: the declared number of bytes, or all there are before the
      peer closes the connection. */
  ghost predicate Arrives(h: Headers, limits: Limits, peer: Peer, wire: Bytes) {
    && |wire| <= limits.maxResponseBytes
    && if h.contentLength.Some? then DeclaresLength(h, Some(|wire|)) && wire <= peer.sent
       else !peer.broken && wire == peer.sent
  }

  /** The page body a response carries, told from the texts of its headers: the bytes themselves, or
      the content of the gzip members they are made of. */
  ghost predicate IsBody(h: Headers, limits: Limits, codec: Codec, peer: Peer, wire: Bytes, body: Bytes) {
    && Framed(h) && Arrives(h, limits, peer, wire)
    && |body| <= (if limits.maxDecodedBytes.Some? then limits.maxDecodedBytes.value else limits.maxResponseBytes)
    && ((IsPlain(h) && body == wire)
        || (IsZipped(h) && wire != [] && exists members :: MadeOf(codec, wire, members, body)))
  }

  lemma BodyMeans(h: Headers, limits: Limits, codec: Codec, peer: Peer, wire: Bytes, body: Bytes)
    requires Lawful(codec)
    ensures IsBody(h, limits, codec, peer, wire, body) <==>
            && Delivered(LengthIn(h), limits.maxResponseBytes, peer) == Some(wire)
            && BodyOf(h, limits, codec, peer) == Some(body)
  {
    hide Lawful, Contents, MadeOf, Framed, IsPlain, IsZipped, AllDecimal, Declares, LengthIn, EncodingOf, HeaderError;
    HeadersMean(h, limits);
    PlainIsNotZipped(h);
    ContentsMeans(codec, wire, body);
    ArrivedMeans(h, limits, peer, wire);
    if HeaderError(h, limits).None? {
      assert DecodedBody(EncodingOf(h), codec, wire) == Some(body) <==>
        || (IsPlain(h) && body == wire)
        || (IsZipped(h) && wire != [] && exists members :: MadeOf(codec, wire, members, body));
    }
  }

  lemma ArrivedMeans(h: Headers, limits: Limits, peer: Peer, wire: Bytes)
    ensures HeaderError(h, limits).None? ==>
              (Arrives(h, limits, peer, wire) <==> Delivered(LengthIn(h), limits.maxResponseBytes, peer) == Some(wire))
    ensures Framed(h) && Arrives(h, limits, peer, wire) && (IsPlain(h) || IsZipped(h)) ==> HeaderError(h, limits).None?
  {
    hide Framed, IsPlain, IsZipped, AllDecimal, Declares, LengthIn, EncodingOf, HeaderError;
    HeadersMean(h, limits);
    if h.contentLength.Some? {
      OneNumber(h.contentLength.value);
      assert Arrives(h, limits, peer, wire) ==> DeclaresLength(h, Some(|wire|));
      assert wire <= peer.sent <==> |wire| <= |peer.sent| && wire == peer.sent[..|wire|];
    }
  }

  /** The response carries this page body. */
  ghost predicate Carries(h: Headers, limits: Limits, codec: Codec, peer: Peer, body: Bytes) {
    exists wire :: IsBody(h, limits, codec, peer, wire, body)
  }

  /** The response carries no page body within the limits; headers that are refused give the error. */
  ghost predicate BodyRefused(h: Headers, limits: Limits, codec: Codec, peer: Peer, e: ReadError) {
    && e != RequestBudgetExhausted && (forall body :: !Carries(h, limits, codec, peer, body))
    && (HeaderError(h, limits).Some? ==> e == HeaderError(h, limits).value)
  }

  /** `_body`. The answer is the body the response carries within the limits, however the network
      cuts it and the decompressor buffers; a refusal means there is none. */
  method ReadBody(h: Headers, limits: Limits, codec: Codec, peer: Peer, habits: nat -> Habit, o: Observation)
    returns (r: Result<Bytes>)
    requires limits.Valid() && Lawful(codec) && o.received == 0 && o.decoded == 0 && o.wire == []
    modifies o
    ensures r.Ok? ==> IsBody(h, limits, codec, peer, o.wire, r.value)
    ensures r.Err? ==> forall wire, body :: !IsBody(h, limits, codec, peer, wire, body)
    ensures Framed(h) && LengthFits(h, limits) && !IsPlain(h) && !IsZipped(h) ==>
              r == Err(EncodingUnsupported) && o.wire == []
    ensures r.Ok? ==> o.framing == Some(if h.transferEncoding.Some? then Chunked
                                        else if h.contentLength.Some? then ContentLength else CloseDelimited)
    ensures (if r.Ok? then Some(r.value) else None) == BodyOf(h, limits, codec, peer)
    ensures HeaderError(h, limits).Some? ==> r == Err(HeaderError(h, limits).value) && o.wire == []
    ensures r.Err? ==> r.error != RequestBudgetExhausted
    ensures o.received == |o.wire| && o.wire <= peer.sent
    ensures r.Ok? ==> Delivered(LengthIn(h), limits.maxResponseBytes, peer) == Some(o.wire)
    ensures r.Ok? ==> |r.value| == o.decoded <= limits.DecodedLimit() && o.received <= limits.maxResponseBytes
  {
    hide DeclaredLength, Lower, Strip, Lawful, Contents, Hopeless, IsBody, Framed, IsPlain, IsZipped, LengthFits,
      AllDecimal, Declares;
    HeadersMean(h, limits);
    forall wire, body
      ensures IsBody(h, limits, codec, peer, wire, body) <==>
              && Delivered(LengthIn(h), limits.maxResponseBytes, peer) == Some(wire)
              && BodyOf(h, limits, codec, peer) == Some(body)
    {
      BodyMeans(h, limits, codec, peer, wire, body);
    }
    if h.transferEncoding.Some? && (Lower(Strip(h.transferEncoding.value)) != "chunked" || h.contentLength.Some?) {
      return Err(FramingInvalid);
    }
    o.framing := Some(if h.transferEncoding.Some? then Chunked else CloseDelimited);
    var length: Option<nat> := None;
    if h.contentLength.Some? {
      var declared := DeclaredLength(h.contentLength.value);
      if declared.Err? {
        return Err(declared.error);
      }
      length := Some(declared.value);
      o.framing := Some(ContentLength);
      if declared.value > limits.maxResponseBytes {
        return Err(BodyTooLarge);
      }
    }
    var encoding := EncodingOf(h);
    o.encoding := Some(encoding);
    if encoding == Unsupported {
      return Err(EncodingUnsupported);
    }
    r := ReadContent(length, encoding, limits, codec, peer, habits, o);
  }

  /** Nothing that goes on from this wire decodes to a body within the limit. */
  ghost predicate NoBody(encoding: Encoding, codec: Codec, wire: Bytes, limit: nat) {
    forall all | wire <= all ::
      DecodedBody(encoding, codec, all).None? || |DecodedBody(encoding, codec, all).value| > limit
  }

  lemma HopelessHasNoBody(codec: Codec, wire: Bytes, limit: nat)
    requires Hopeless(codec, wire, limit)
    ensures NoBody(Gzip, codec, wire, limit)
  {
    hide Contents;
  }

  lemma DeliveredGoesOn(length: Option<nat>, maxBytes: nat, peer: Peer, wire: Bytes)
    requires wire <= peer.sent && (length.Some? ==> |wire| <= length.value)
    ensures Delivered(length, maxBytes, peer).Some? ==> wire <= Delivered(length, maxBytes, peer).value
  {
  }

  /** The inner loop: one chunk goes through the decoder in capped pieces. */
  method DecodeChunk(encoding: Encoding, decoder: Decompressor, chunk: Bytes, body: Bytes, limit: nat,
      habits: nat -> Habit, calls: nat, o: Observation, ghost done: Bytes, ghost shown: Bytes, ghost seen: Bytes)
    returns (failure: Option<ReadError>, next: Decompressor, out: Bytes, made: nat,
             ghost done': Bytes, ghost shown': Bytes, ghost seen': Bytes)
    requires encoding != Unsupported && Lawful(decoder.codec) && o.decoded == |body| <= limit
    requires encoding == Identity ==> body + chunk == o.wire
    requires encoding == Gzip ==> Stands(decoder, done, shown, seen, chunk, o.wire, body)
    modifies o`decoded, decoder
    ensures next.codec == decoder.codec && (next == decoder || fresh(next))
    ensures failure.None? ==>
              && o.decoded == |out| <= limit && (encoding == Identity ==> out == o.wire)
              && (encoding == Gzip ==> Stands(next, done', shown', seen', [], o.wire, out))
    ensures failure.Some? ==>
              failure.value in {CompressionInvalid, DecodedTooLarge} && NoBody(encoding, decoder.codec, o.wire, limit)
  {
    hide Lawful, Contents, Hopeless, Stands, NoBody;
    next, out, made, done', shown', seen' := decoder, body, calls, done, shown, seen;
    var pending := chunk;
    while pending != []
      invariant |out| == o.decoded <= limit && next.codec == decoder.codec && (next == decoder || fresh(next))
      invariant encoding == Identity ==> out + pending == o.wire
      invariant encoding == Gzip ==> Stands(next, done', shown', seen', pending, o.wire, out)
      decreases |pending| + (limit - |out|)
    {
      var decoded: Bytes;
      if encoding == Identity {
        decoded, pending := pending, [];
        o.decoded := o.decoded + |decoded|;
        if o.decoded > limit {
          PlainTooLarge(decoder.codec, o.wire, limit);
          return Some(DecodedTooLarge), next, out, made, done', shown', seen';
        }
      } else {
        if next.eof {
          var another := new Decompressor(next.codec);
          done' := NextMember(next, done', shown', seen', pending, o.wire, out, another);
          next, shown', seen' := another, out, [];
        }
        var cap := Least(65536, limit + 1 - |out|);
        var answer;
        answer, pending := InflateOnce(next, pending, cap, habits(made), out, limit, done', shown', seen', o.wire);
        made := made + 1;
        seen' := next.fed + pending;
        if answer.None? {
          HopelessHasNoBody(next.codec, o.wire, limit);
          return Some(CompressionInvalid), next, out, made, done', shown', seen';
        }
        decoded := answer.value;
        o.decoded := o.decoded + |decoded|;
        if o.decoded > limit {
          HopelessHasNoBody(next.codec, o.wire, limit);
          return Some(DecodedTooLarge), next, out, made, done', shown', seen';
        }
      }
      out := out + decoded;
    }
    failure := None;
  }

  lemma PlainTooLarge(codec: Codec, wire: Bytes, limit: nat)
    requires |wire| > limit
    ensures NoBody(Identity, codec, wire, limit)
  {
  }

  /** The read loop of a response whose headers passed. */
  method ReadContent(length: Option<nat>, encoding: Encoding, limits: Limits, codec: Codec, peer: Peer,
      habits: nat -> Habit, o: Observation)
    returns (r: Result<Bytes>)
    requires limits.Valid() && Lawful(codec) && o.received == 0 && o.decoded == 0 && o.wire == []
    requires encoding != Unsupported && (length.Some? ==> length.value <= limits.maxResponseBytes)
    modifies o`received, o`decoded, o`wire
    ensures var wire := Delivered(length, limits.maxResponseBytes, peer);
            var body := if wire.Some? then DecodedBody(encoding, codec, wire.value) else None;
            if r.Ok? then wire == Some(o.wire) && body == Some(r.value) && |r.value|
                == o.decoded <= limits.DecodedLimit()
            else body.None? || |body.value| > limits.DecodedLimit()
    ensures r.Err? ==> r.error in {BodyIncomplete, BodyTooLarge, CompressionInvalid, CompressionIncomplete,
        DecodedTooLarge}
    ensures o.received == |o.wire| && o.wire <= peer.sent && (r.Ok? ==> o.received <= limits.maxResponseBytes)
  {
    hide Lawful, Contents, Hopeless, Stands;
    var body: Bytes := [];
    var decoder := new Decompressor(codec);
    ghost var done: Bytes, shown: Bytes, seen: Bytes := [], [], [];
    NothingStands(decoder);
    var readCount, calls: nat := 0, 0;
    while length != Some(o.received)
      invariant o.received == |o.wire| <= limits.maxResponseBytes && o.wire <= peer.sent
      invariant length.Some? ==> o.received <= length.value
      invariant |body| == o.decoded <= limits.DecodedLimit() && decoder.codec == codec && fresh(decoder)
      invariant encoding == Identity ==> body == o.wire
      invariant encoding == Gzip ==> Stands(decoder, done, shown, seen, [], o.wire, body)
      decreases limits.maxResponseBytes - o.received
    {
      var asked := limits.maxResponseBytes + 1 - o.received;
      if length.Some? {
        asked := Least(asked, length.value - o.received);
      }
      ghost var before := o.wire;
      var chunk := o.Receive(peer, readCount, Least(65536, asked));
      readCount := readCount + 1;
      if chunk.None? {
        return Err(BodyIncomplete);
      }
      if o.received > limits.maxResponseBytes {
        return Err(BodyTooLarge);
      }
      if chunk.value == [] {
        assert o.wire == before;
        break;
      }
      if encoding == Gzip { MoreWire(decoder, done, shown, seen, before, chunk.value, body); }
      var failure;
      failure, decoder, body, calls, done, shown, seen :=
        DecodeChunk(encoding, decoder, chunk.value, body, limits.DecodedLimit(), habits, calls, o, done, shown, seen);
      if failure.Some? {
        DeliveredGoesOn(length, limits.maxResponseBytes, peer, o.wire);
        return Err(failure.value);
      }
    }
    if length.Some? && o.received != length.value {
      return Err(BodyIncomplete);
    }
    assert length.Some? ==> o.wire == peer.sent[..length.value];
    if encoding == Gzip {
      EndOfWire(decoder, done, shown, seen, o.wire, body);
      if !decoder.eof {
        return Err(CompressionIncomplete);
      }
    }
    r := Ok(body);
  }

  // ---------- the redirect loop ----------

  /** What one request came back with. */
  datatype Reply = Redirect(location: Option<string>) | TooManyRequests | OtherStatus | Success(headers: Headers,
      peer: Peer)

  datatype Row = Row(index: nat, received: nat, decoded: nat, outcome: Option<ReadError>)

  datatype HopResult = Moved(url: string) | Loaded(body: Bytes) | Failed(error: ReadError)

  datatype Fetched = Fetched(url: string, redirects: seq<string>, body: Bytes)

  /** Admission and canonical form of a URL, and its resolution against a base. */
  datatype Urls = Urls(canonical: string -> Option<string>, join: (string, string) -> string)

  /** What the independent report check demands: row numbers go up and stay within the count. */
  ghost predicate ReportOk(rows: seq<Row>, requests: nat) {
    && (forall i :: 0 <= i < |rows| ==> 1 <= rows[i].index <= requests)
    && (forall i, j :: 0 <= i < j < |rows| ==> rows[i].index < rows[j].index)
  }

  class PublicSourceReader {
    const limits: Limits
    const urls: Urls
    var requests: nat
    var rows: seq<Row>

    ghost predicate Valid()
      reads this
    {
      limits.Valid() && requests <= limits.maxRequests && ReportOk(rows, requests)
    }

    constructor (limits: Limits, urls: Urls)
      requires limits.Valid()
      ensures Valid() && this.limits == limits && this.urls == urls && requests == 0 && rows == []
    {
      this.limits, this.urls := limits, urls;
      requests, rows := 0, [];
    }

    method Observe(o: Observation, outcome: Option<ReadError>)
      requires Valid() && requests >= 1 && (rows == [] || rows[|rows| - 1].index < requests)
      modifies this`rows
      ensures Valid() && rows == old(rows) + [Row(requests, o.received, o.decoded, outcome)]
    {
      rows := rows + [Row(requests, o.received, o.decoded, outcome)];
    }

    /** One request and its report row. */
    method Hop(current: string, redirects: seq<string>, reply: Reply, codec: Codec, habits: nat -> Habit)
      returns (r: HopResult)
      requires Valid() && requests < limits.maxRequests && Lawful(codec)
      modifies this`requests, this`rows
      ensures Valid() && requests == old(requests) + 1
      ensures |rows| == |old(rows)| + 1 && rows[..|old(rows)|] == old(rows)
      ensures rows[|old(rows)|].outcome == if r.Failed? then Some(r.error) else None
      ensures reply.Redirect? ==> r == NextPage(current, redirects, reply.location)
      ensures reply.TooManyRequests? ==> r == Failed(RateLimited)
      ensures reply.OtherStatus? ==> r == Failed(Unavailable)
      ensures rows[|old(rows)|].index == requests
      ensures !reply.Success? ==> rows[|old(rows)|].received == rows[|old(rows)|].decoded == 0
      ensures reply.Success? ==>
                match r
                case Loaded(body) =>
                  && Carries(reply.headers, limits, codec, reply.peer, body)
                  && rows[|old(rows)|].decoded == |body| <= limits.DecodedLimit()
                  && rows[|old(rows)|].received <= limits.maxResponseBytes
                case Failed(e) => BodyRefused(reply.headers, limits, codec, reply.peer, e)
                case Moved(_) => false
    {
      hide ReportOk, DeclaredLength, EncodingOf, FramingOk, Lawful, BodyOf, HeaderError, IsBody;
      ReportGrows(rows, requests);
      requests := requests + 1;
      var o := new Observation();
      r := Failed(Unavailable);
      match reply {
        case Redirect(location) =>
          r := NextPage(current, redirects, location);
        case TooManyRequests =>
          r := Failed(RateLimited);
        case OtherStatus =>
        case Success(headers, peer) =>
          var body := ReadBody(headers, limits, codec, peer, habits, o);
          r := if body.Ok? then Loaded(body.value) else Failed(body.error);
      }
      Observe(o, if r.Failed? then Some(r.error) else None);
    }

    function NextPage(current: string, redirects: seq<string>, location: Option<string>): HopResult {
      if |redirects| >= limits.maxRedirects then Failed(RedirectLimit)
      else if location.None? || location.value == "" then Failed(ResponseInvalid)
      else match urls.canonical(urls.join(current, location.value))
        case None => Failed(UnsafeUrl)
        case Some(destination) =>
          if destination == current || destination in redirects then Failed(RedirectLimit) else Moved(destination)
    }

    /** A page a read may end at: reached along a trail within both budgets, and answered with
        a body. */
    ghost predicate Fetches(url: string, replies: nat -> Reply, codec: Codec, used: nat, f: Fetched) {
      && urls.canonical(url).Some?
      && Trail(urls, replies, urls.canonical(url).value, f.redirects + [f.url])
      && |f.redirects| <= limits.maxRedirects && used + |f.redirects| + 1 <= limits.maxRequests
      && var reply := replies(|f.redirects|);
         reply.Success? && Carries(reply.headers, limits, codec, reply.peer, f.body)
    }

    /** Where and why a read stops: before a request when the budget is spent, or at the reply to one. */
    ghost predicate Stops(url: string, replies: nat -> Reply, codec: Codec, used: nat, redirects: seq<string>,
        current: string, e: ReadError)
    {
      && urls.canonical(url).Some? && Trail(urls, replies, urls.canonical(url).value, redirects + [current])
      && |redirects| <= limits.maxRedirects && used + |redirects| <= limits.maxRequests
      && if used + |redirects| == limits.maxRequests then e == RequestBudgetExhausted
         else match replies(|redirects|)
           case Redirect(location) => NextPage(current, redirects, location) == Failed(e)
           case TooManyRequests => e == RateLimited
           case OtherStatus => e == Unavailable
           case Success(headers, peer) => BodyRefused(headers, limits, codec, peer, e)
    }

    /** `_read`: it succeeds exactly when there is a page to end at, and with that page; every
        request is counted and reported once, whatever the servers answer. */
    method Read(url: string, replies: nat -> Reply, codec: Codec, habits: nat -> Habit) returns (r: Result<Fetched>)
      requires Valid() && |rows| == requests && Lawful(codec)
      modifies this`requests, this`rows
      ensures Valid() && |rows| == requests >= old(requests)
      ensures rows[..old(requests)] == old(rows)
      ensures requests - old(requests) <= limits.maxRedirects + 1
      ensures r.Ok? ==> Fetches(url, replies, codec, old(requests), r.value)
                        && requests == old(requests) + |r.value.redirects| + 1
      ensures r.Err? ==> forall f :: !Fetches(url, replies, codec, old(requests), f)
      ensures r.Err? ==> (urls.canonical(url).None? && r.error == UnsafeUrl)
                         || exists redirects, current ::
                              Stops(url, replies, codec, old(requests), redirects, current, r.error)
      ensures forall i :: old(requests) <= i < |rows| - 1 ==> rows[i].outcome == None
      ensures r.Err? && requests > old(requests) && r.error != RequestBudgetExhausted ==>
                rows[|rows| - 1].outcome == Some(r.error)
    {
      hide Valid, Trail, LeadsTo, Lawful, Carries, HeaderError;
      var start := urls.canonical(url);
      if start.None? {
        return Err(UnsafeUrl);
      }
      var current := start.value;
      var redirects: seq<string> := [];
      TrailStarts(urls, replies, current);
      BudgetHolds();
      while true
        invariant Valid() && |rows| == requests == old(requests) + |redirects| && requests <= limits.maxRequests
        invariant rows[..old(requests)] == old(rows)
        invariant |redirects| <= limits.maxRedirects && Trail(urls, replies, start.value, redirects + [current])
        invariant forall i :: old(requests) <= i < |rows| ==> rows[i].outcome == None
        decreases limits.maxRedirects - |redirects|
      {
        forall f | Fetches(url, replies, codec, old(requests), f)
          ensures |redirects| <= |f.redirects|
          ensures |f.redirects| == |redirects| ==> f.redirects == redirects && f.url == current
          ensures |f.redirects| > |redirects| ==>
                    && replies(|redirects|).Redirect?
                    && NextPage(current, redirects, replies(|redirects|).location).Moved?
        {
          FetchGoesOn(url, replies, codec, old(requests), f, redirects, current);
        }
        if requests >= limits.maxRequests {
          assert Stops(url, replies, codec, old(requests), redirects, current, RequestBudgetExhausted);
          return Err(RequestBudgetExhausted);
        }
        ghost var before := rows;
        var hop := Hop(current, redirects, replies(|redirects|), codec, habits);
        BudgetHolds();
        assert forall i :: 0 <= i < |before| ==> rows[i] == rows[..|before|][i];
        match hop {
          case Failed(error) =>
            assert Stops(url, replies, codec, old(requests), redirects, current, error);
            return Err(error);
          case Loaded(body) =>
            return Ok(Fetched(current, redirects, body));
          case Moved(next) =>
            NextPageLeads(current, redirects, replies(|redirects|));
            TrailGrows(urls, replies, start.value, redirects, current, next);
            redirects := redirects + [current];
            current := next;
        }
      }
    }

    lemma BudgetHolds()
      requires Valid()
      ensures requests <= limits.maxRequests
    {
    }

    lemma NextPageLeads(current: string, redirects: seq<string>, reply: Reply)
      requires reply.Redirect?
      ensures var next := NextPage(current, redirects, reply.location);
              next.Moved? <==>
                |redirects| < limits.maxRedirects
                && exists url :: LeadsTo(urls, reply, current, url) && url != current && url !in redirects
      ensures var next := NextPage(current, redirects, reply.location);
              next.Moved? ==> LeadsTo(urls, reply, current, next.url) && next.url != current && next.url !in redirects
      ensures NextPage(current, redirects, reply.location) == Failed(RedirectLimit) <==>
                || |redirects| >= limits.maxRedirects
                || exists url :: LeadsTo(urls, reply, current, url) && (url == current || url in redirects)
      ensures NextPage(current, redirects, reply.location) == Failed(ResponseInvalid) <==>
                |redirects| < limits.maxRedirects && reply.location in {None, Some("")}
      ensures NextPage(current, redirects, reply.location) == Failed(UnsafeUrl) <==>
                && |redirects| < limits.maxRedirects && reply.location !in {None, Some("")}
                && forall url :: !LeadsTo(urls, reply, current, url)
    {
      var next := NextPage(current, redirects, reply.location);
      assert next.Moved? ==> LeadsTo(urls, reply, current, next.url);
      if url :| LeadsTo(urls, reply, current, url) && url != current && url !in redirects {
        assert urls.canonical(urls.join(current, reply.location.value)) == Some(url);
      }
      if reply.location.Some? && urls.canonical(urls.join(current, reply.location.value)).Some? {
        assert reply.location.value != "" ==>
            LeadsTo(urls, reply, current, urls.canonical(urls.join(current, reply.location.value)).value);
      }
    }

    /** Wherever a read may end, its trail runs along the one under way. */
    lemma FetchGoesOn(url: string, replies: nat -> Reply, codec: Codec, used: nat, f: Fetched, redirects: seq<string>,
        current: string)
      requires Fetches(url, replies, codec, used, f)
      requires Trail(urls, replies, urls.canonical(url).value, redirects + [current])
      ensures |redirects| <= |f.redirects|
      ensures |f.redirects| == |redirects| ==> f.redirects == redirects && f.url == current
      ensures |f.redirects| > |redirects| ==>
                replies(|redirects|).Redirect? && NextPage(current, redirects, replies(|redirects|).location).Moved?
    {
      hide Carries, LeadsTo;
      var first := urls.canonical(url).value;
      var mine, theirs := redirects + [current], f.redirects + [f.url];
      var n := |redirects|;
      if |theirs| < |mine| {
        assert LeadsTo(urls, replies(|f.redirects|), mine[|f.redirects|], mine[|f.redirects| + 1]);
        LeadsByRedirect(urls, replies(|f.redirects|), mine[|f.redirects|], mine[|f.redirects| + 1]);
      } else {
        TrailsAgree(urls, replies, first, mine, theirs, n);
        assert mine[..n + 1] == mine && theirs[n] == mine[n] == current;
        if |theirs| == |mine| {
          assert theirs[..n + 1] == theirs;
          assert f.redirects == theirs[..n] == mine[..n] == redirects;
        } else {
          var next := theirs[n + 1];
          assert LeadsTo(urls, replies(n), theirs[n], next);
          LeadsByRedirect(urls, replies(n), current, next);
          assert forall i :: 0 <= i < n ==> redirects[i] == mine[i] == theirs[i];
          NextPageLeads(current, redirects, replies(n));
        }
      }
    }
  }

  lemma LeadsByRedirect(urls: Urls, reply: Reply, page: string, next: string)
    requires LeadsTo(urls, reply, page, next)
    ensures reply.Redirect?
  {
  }

  lemma LeadsToOne(urls: Urls, reply: Reply, page: string, a: string, b: string)
    requires LeadsTo(urls, reply, page, a) && LeadsTo(urls, reply, page, b)
    ensures a == b
  {
  }

  /** Two trails from one page run along each other. */
  lemma {:induction false} TrailsAgree(urls: Urls, replies: nat -> Reply, first: string, a: seq<string>, b: seq<string>,
      n: nat)
    requires Trail(urls, replies, first, a) && Trail(urls, replies, first, b) && n < |a| && n < |b|
    ensures a[..n + 1] == b[..n + 1]
  {
    hide LeadsTo;
    if n == 0 {
    } else {
      TrailsAgree(urls, replies, first, a, b, n - 1);
      assert a[n - 1] == a[..n][n - 1] == b[..n][n - 1] == b[n - 1];
      assert LeadsTo(urls, replies(n - 1), a[n - 1], a[n - 1 + 1]) && LeadsTo(urls, replies(n - 1), b[n - 1],
          b[n - 1 + 1]);
      LeadsToOne(urls, replies(n - 1), a[n - 1], a[n], b[n]);
      assert a[..n + 1] == a[..n] + [a[n]] && b[..n + 1] == b[..n] + [b[n]];
    }
  }

  /** The reply at one page sent the reader to the next. */
  predicate LeadsTo(urls: Urls, reply: Reply, page: string, next: string) {
    reply.Redirect? && reply.location.Some? && reply.location.value != ""
    && urls.canonical(urls.join(page, reply.location.value)) == Some(next)
  }

  /** The pages of one read: from the first URL, each sent on by the reply at the one before,
      none visited twice. */
  ghost predicate Trail(urls: Urls, replies: nat -> Reply, first: string, pages: seq<string>) {
    && pages != [] && pages[0] == first && Distinct(pages)
    && forall k :: 0 <= k < |pages| - 1 ==> LeadsTo(urls, replies(k), pages[k], pages[k + 1])
  }

  lemma TrailStarts(urls: Urls, replies: nat -> Reply, first: string)
    ensures Trail(urls, replies, first, [] + [first])
  {
  }

  lemma TrailGrows(urls: Urls, replies: nat -> Reply, first: string, redirects: seq<string>, current: string,
      next: string)
    requires Trail(urls, replies, first, redirects + [current])
    requires LeadsTo(urls, replies(|redirects|), current, next)
    requires next != current && next !in redirects
    ensures Trail(urls, replies, first, redirects + [current] + [next])
  {
    hide LeadsTo;
    var pages := redirects + [current];
    var more := pages + [next];
    forall k | 0 <= k < |more| - 1
      ensures LeadsTo(urls, replies(k), more[k], more[k + 1])
    {
      if k < |pages| - 1 {
        assert more[k] == pages[k] && more[k + 1] == pages[k + 1];
      }
    }
  }

  lemma ReportGrows(rows: seq<Row>, requests: nat)
    requires ReportOk(rows, requests)
    ensures ReportOk(rows, requests + 1)
    ensures rows == [] || rows[|rows| - 1].index < requests + 1
  {
  }
}
