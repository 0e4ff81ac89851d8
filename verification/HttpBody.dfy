/** Bounded streaming bodies (backend/investigation/providers/http.py). The compression format is any
    decoder that works byte by byte, as inflate with its gzip trailer does; zlib's decompressobj is
    modelled on top of it with its documented max_length behaviour. */
module HttpBody {
  import opened Common

  datatype Feed<S> = More(state: S, output: Bytes) | Finished(output: Bytes) | Corrupt

  datatype Codec<!S> = Codec(start: S, feed: (S, bv8) -> Feed<S>)

  /** What a whole input means: a complete member and the bytes after it, an unfinished member, or
      not a member at all. */
  datatype Decoded<S> = Complete(output: Bytes, rest: Bytes) | Unfinished(output: Bytes, state: S) | Broken

  function Prepend<S>(output: Bytes, d: Decoded<S>): Decoded<S> {
    match d
    case Complete(o, rest) => Complete(output + o, rest)
    case Unfinished(o, s) => Unfinished(output + o, s)
    case Broken => Broken
  }

  function Decode<S>(codec: Codec<S>, state: S, wire: Bytes): Decoded<S> {
    if wire == [] then Unfinished([], state)
    else match codec.feed(state, wire[0])
      case More(next, output) => Prepend(output, Decode(codec, next, wire[1..]))
      case Finished(output) => Complete(output, wire[1..])
      case Corrupt => Broken
  }

  /** The body a response has, whatever its chunks: the wire bytes themselves, or the one complete
      gzip member they form, both on the wire and decoded within the cap. */
  function BodyOf<S>(codec: Codec<S>, encoding: string, cap: nat, wire: Bytes): Option<Bytes> {
    if |wire| > cap then None
    else if encoding == "identity" then Some(wire)
    else if encoding != "gzip" then None
    else match Decode(codec, codec.start, wire)
      case Complete(output, rest) => if rest == [] && |output| <= cap then Some(output) else None
      case _ => None
  }

  /** Which bodies there are: any wire bytes within the cap if they are not compressed, and one whole member within the
      cap, both on the wire and inflated, if they are; under any other encoding none. */
  lemma BodyExactly<S>(codec: Codec<S>, encoding: string, cap: nat, wire: Bytes, content: Bytes)
    ensures BodyOf(codec, encoding, cap, wire) == Some(content) <==>
      && |wire| <= cap && |content| <= cap
      && ((encoding == "identity" && content == wire)
          || (encoding == "gzip" && Decode(codec, codec.start, wire) == Complete(content, [])))
  {
  }

  /** Some beginning of the wire inflates beyond the cap. */
  ghost predicate Overflows<S>(codec: Codec<S>, cap: nat, wire: Bytes) {
    exists part: Bytes :: part <= wire && TooLong(Decode(codec, codec.start, part), cap)
  }

  predicate TooLong<S>(d: Decoded<S>, cap: nat) {
    !d.Broken? && |d.output| > cap
  }

  /** The wire is no whole member: broken, cut short, or with bytes after the end. */
  predicate NoMember<S>(codec: Codec<S>, wire: Bytes) {
    var d := Decode(codec, codec.start, wire);
    d.Complete? ==> d.rest != []
  }

  /** Decoding a longer input continues where the shorter one stopped. */
  lemma {:induction false} DecodeAppend<S>(codec: Codec<S>, state: S, a: Bytes, b: Bytes)
    ensures Decode(codec, state, a + b) ==
      match Decode(codec, state, a)
      case Complete(o, rest) => Complete(o, rest + b)
      case Unfinished(o, s) => Prepend(o, Decode(codec, s, b))
      case Broken => Broken
  {
    if a == [] {
      assert a + b == b;
      PrependNothing(Decode(codec, state, b));
    } else {
      assert (a + b)[1..] == a[1..] + b;
      match codec.feed(state, a[0])
      case More(next, output) =>
        DecodeAppend(codec, next, a[1..], b);
        var tail := Decode(codec, next, a[1..]);
        if tail.Unfinished? {
          PrependTwice(output, tail.output, Decode(codec, tail.state, b));
        }
      case Finished(_) =>
      case Corrupt =>
    }
  }

  lemma PrependNothing<S>(d: Decoded<S>)
    ensures Prepend([], d) == d
  {
    if !d.Broken? { assert [] + d.output == d.output; }
  }

  lemma PrependTwice<S>(a: Bytes, b: Bytes, d: Decoded<S>)
    ensures Prepend(a, Prepend(b, d)) == Prepend(a + b, d)
  {
    if !d.Broken? { assert a + (b + d.output) == a + b + d.output; }
  }

  lemma DecodeOneMore<S>(codec: Codec<S>, before: Bytes, given: Bytes, buffer: Bytes, state: S, next: bv8)
    requires Decode(codec, codec.start, before) == Unfinished(given + buffer, state)
    ensures Decode(codec, codec.start, before + [next]) ==
      match codec.feed(state, next)
      case More(s, output) => Unfinished(given + (buffer + output), s)
      case Finished(output) => Complete(given + (buffer + output), [])
      case Corrupt => Broken
  {
    DecodeAppend(codec, codec.start, before, [next]);
    assert [next][1..] == [];
    match codec.feed(state, next)
    case More(s, output) =>
      assert Decode(codec, s, []) == Unfinished([], s);
      assert given + buffer + (output + []) == given + (buffer + output);
    case Finished(output) =>
      assert given + buffer + output == given + (buffer + output);
    case Corrupt =>
  }

  lemma BrokenPrefix<S>(codec: Codec<S>, part: Bytes, wire: Bytes)
    requires part <= wire && Decode(codec, codec.start, part) == Broken
    ensures Decode(codec, codec.start, wire) == Broken
  {
    assert wire == part + wire[|part|..];
    DecodeAppend(codec, codec.start, part, wire[|part|..]);
  }

  /** A prefix that already decodes to more than the cap condemns the whole body. */
  lemma PrefixTooLong<S>(codec: Codec<S>, cap: nat, part: Bytes, wire: Bytes, output: Bytes)
    requires part <= wire && |output| > cap
    requires var d := Decode(codec, codec.start, part); !d.Broken? && output <= d.output
    ensures BodyOf(codec, "gzip", cap, wire).None? && Overflows(codec, cap, wire)
  {
    assert wire == part + wire[|part|..];
    DecodeAppend(codec, codec.start, part, wire[|part|..]);
    assert TooLong(Decode(codec, codec.start, part), cap);
  }

  /** A member that ends before the wire does condemns the whole body. */
  lemma TrailingBytes<S>(codec: Codec<S>, cap: nat, part: Bytes, wire: Bytes)
    requires part < wire && Decode(codec, codec.start, part).Complete?
    ensures BodyOf(codec, "gzip", cap, wire).None? && NoMember(codec, wire)
  {
    assert wire == part + wire[|part|..];
    DecodeAppend(codec, codec.start, part, wire[|part|..]);
  }

  datatype Inflated = Output(bytes: Bytes) | ZlibError

  /** zlib.decompressobj. `pending` is output already decoded that did not fit the last limit. */
  class Decompressor<S> {
    const codec: Codec<S>
    var state: S
    var pending: Bytes
    var ended: bool
    var unconsumedTail: Bytes
    var unusedData: Bytes
    ghost var consumed: Bytes
    ghost var given: Bytes

    /** Everything consumed decodes to what has been given out followed by what is pending. */
    ghost predicate Valid()
      reads this
    {
      Decoding(pending)
    }

    ghost predicate Decoding(buffer: Bytes)
      reads this
    {
      if ended
      then Decode(codec, codec.start, consumed) == Complete(given + buffer, [])
      else Decode(codec, codec.start, consumed) == Unfinished(given + buffer, state) && unusedData == []
    }

    /** zlib reports the end of the stream only once all output has been taken. */
    predicate Eof()
      reads this
    {
      ended && pending == []
    }

    constructor (codec: Codec<S>)
      ensures Valid() && this.codec == codec
      ensures consumed == given == pending == unusedData == unconsumedTail == []
    {
      this.codec := codec;
      state := codec.start;
      pending, ended, unconsumedTail, unusedData := [], false, [], [];
      consumed, given := [], [];
    }

    /** At most maxLength bytes come out (0 means no limit). When fewer come out, all of the chunk
        was consumed up to the end of the stream; otherwise the rest of the chunk is left in
        unconsumedTail, for the caller to pass again. */
    method Decompress(chunk: Bytes, maxLength: nat) returns (r: Inflated)
      requires Valid()
      modifies this
      ensures r.Output? ==> Valid() && given == old(given) + r.bytes && (maxLength > 0 ==> |r.bytes| <= maxLength)
      ensures r.Output? ==> exists n ::
        && 0 <= n <= |chunk| && consumed == old(consumed) + chunk[..n]
        && unconsumedTail == (if Eof() then [] else chunk[n..])
        && unusedData == old(unusedData) + (if Eof() then chunk[n..] else [])
        && (maxLength == 0 || |r.bytes| < maxLength ==> pending == [] && (Eof() || n == |chunk|))
      ensures r.ZlibError? ==> Decode(codec, codec.start, old(consumed) + chunk) == Broken
    {
      var n, buffer, corrupt := Inflate(chunk, maxLength);
      if corrupt {
        return ZlibError;
      }
      var size := if maxLength > 0 && maxLength < |buffer| then maxLength else |buffer|;
      assert given + buffer == (given + buffer[..size]) + buffer[size..];
      r := Output(buffer[..size]);
      given, pending := given + buffer[..size], buffer[size..];
      if ended && pending == [] {
        unusedData, unconsumedTail := unusedData + chunk[n..], [];
      } else {
        unconsumedTail := chunk[n..];
      }
    }

    /** Feeds bytes until the chunk, the stream or the room for output is exhausted. */
    method Inflate(chunk: Bytes, maxLength: nat) returns (n: nat, buffer: Bytes, corrupt: bool)
      requires Valid()
      modifies this`state, this`ended, this`consumed
      ensures n <= |chunk| && consumed == old(consumed) + chunk[..n]
      ensures !corrupt ==> Decoding(buffer)
      ensures !corrupt ==> n == |chunk| || ended || (maxLength > 0 && |buffer| >= maxLength)
      ensures corrupt ==> Decode(codec, codec.start, old(consumed) + chunk) == Broken
    {
      n, buffer, corrupt := 0, pending, false;
      while n < |chunk| && !ended && (maxLength == 0 || |buffer| < maxLength)
        invariant n <= |chunk| && consumed == old(consumed) + chunk[..n] && Decoding(buffer)
        decreases |chunk| - n
      {
        DecodeOneMore(codec, consumed, given, buffer, state, chunk[n]);
        assert chunk[..n + 1] == chunk[..n] + [chunk[n]];
        match codec.feed(state, chunk[n]) {
          case More(next, output) =>
            state, buffer := next, buffer + output;
          case Finished(output) =>
            ended, buffer := true, buffer + output;
          case Corrupt =>
            assert consumed + [chunk[n]] <= old(consumed) + chunk;
            BrokenPrefix(codec, consumed + [chunk[n]], old(consumed) + chunk);
            corrupt := true;
            return;
        }
        consumed := consumed + [chunk[n]];
        n := n + 1;
      }
    }
  }

  function Concat(chunks: seq<Bytes>): Bytes {
    if chunks == [] then [] else Concat(chunks[..|chunks| - 1]) + chunks[|chunks| - 1]
  }

  lemma {:induction false} ConcatSplit(chunks: seq<Bytes>, n: nat)
    requires n <= |chunks|
    ensures Concat(chunks[..n]) <= Concat(chunks)
  {
    if n == |chunks| {
      assert chunks[..n] == chunks;
    } else {
      var most := chunks[..|chunks| - 1];
      assert most[..n] == chunks[..n];
      ConcatSplit(most, n);
    }
  }

  datatype BodyError = InvalidResponse | ResponseTooLarge

  datatype Body = Content(bytes: Bytes) | Rejected(error: BodyError)

  const MAX_RESPONSE_BYTES: nat := 2 * 1024 * 1024

  class ProviderHttp {
    const maxResponseBytes: nat

    constructor (configured: int)
      ensures 1 <= maxResponseBytes <= 2_097_152
      ensures 1 <= configured <= 2_097_152 ==> maxResponseBytes == configured
      ensures configured < 1 ==> maxResponseBytes == 1
      ensures configured > 2_097_152 ==> maxResponseBytes == 2_097_152
    {
      maxResponseBytes := if configured < 1 then 1 else if configured > MAX_RESPONSE_BYTES then MAX_RESPONSE_BYTES else configured;
    }

    /** One chunk of a compressed body, inflated into at most `limit` bytes: one more than there is room for. */
    method AddInflated<S>(decoder: Decompressor<S>, chunk: Bytes, content: Bytes, limit: nat, ghost before: Bytes, ghost wire: Bytes)
      returns (r: Body)
      requires Caught(decoder, before, content) && before + chunk <= wire
      requires |content| <= maxResponseBytes && limit == maxResponseBytes - |content| + 1
      modifies decoder
      ensures r.Content? ==> Caught(decoder, before + chunk, r.bytes) && |r.bytes| <= maxResponseBytes
      ensures r.Rejected? ==> BodyOf(decoder.codec, "gzip", maxResponseBytes, wire).None?
      ensures r == Rejected(InvalidResponse) ==> NoMember(decoder.codec, wire)
      ensures r == Rejected(ResponseTooLarge) ==> Overflows(decoder.codec, maxResponseBytes, wire)
    {
      var inflated := decoder.Decompress(chunk, limit);
      if inflated.ZlibError? {
        BrokenPrefix(decoder.codec, before + chunk, wire);
        return Rejected(InvalidResponse);
      }
      if |content| + |inflated.bytes| > maxResponseBytes {
        assert decoder.consumed <= before + chunk;
        PrefixTooLong(decoder.codec, maxResponseBytes, decoder.consumed, wire, decoder.given);
        return Rejected(ResponseTooLarge);
      }
      if decoder.unusedData != [] {
        assert decoder.consumed + decoder.unusedData == before + chunk;
        TrailingBytes(decoder.codec, maxResponseBytes, decoder.consumed, wire);
        return Rejected(InvalidResponse);
      }
      r := Content(content + inflated.bytes);
    }

    /** `encoding` is the Content-Encoding header, stripped and lowered. `limits` collects every bound
        handed to decompress: never 0, which zlib would take for no bound at all. */
    method ReadBody<S>(codec: Codec<S>, encoding: string, chunks: seq<Bytes>) returns (r: Body, ghost limits: seq<nat>)
      ensures r.Content? <==> BodyOf(codec, encoding, maxResponseBytes, Concat(chunks)).Some?
      ensures r.Content? ==> Some(r.bytes) == BodyOf(codec, encoding, maxResponseBytes, Concat(chunks))
      ensures encoding == "identity" ==> r != Rejected(InvalidResponse)
      ensures encoding != "identity" && encoding != "gzip" ==> r == Rejected(InvalidResponse)
      ensures encoding == "gzip" && r == Rejected(InvalidResponse) ==> NoMember(codec, Concat(chunks))
      ensures encoding == "gzip" && r == Rejected(ResponseTooLarge) ==>
        |Concat(chunks)| > maxResponseBytes || Overflows(codec, maxResponseBytes, Concat(chunks))
      ensures forall l | l in limits :: 1 <= l <= maxResponseBytes + 1
    {
      limits := [];
      if encoding != "identity" && encoding != "gzip" {
        return Rejected(InvalidResponse), limits;
      }
      var decoder := new Decompressor(codec);
      var content: Bytes := [];
      var wireBytes := 0;
      for i := 0 to |chunks|
        invariant fresh(decoder) && decoder.codec == codec
        invariant wireBytes == |Concat(chunks[..i])| <= maxResponseBytes && |content| <= maxResponseBytes
        invariant encoding == "identity" ==> content == Concat(chunks[..i])
        invariant encoding == "gzip" ==> Caught(decoder, Concat(chunks[..i]), content)
        invariant forall l | l in limits :: 1 <= l <= maxResponseBytes + 1
      {
        assert chunks[..i + 1][..i] == chunks[..i];
        ConcatSplit(chunks, i + 1);
        wireBytes := wireBytes + |chunks[i]|;
        if wireBytes > maxResponseBytes {
          return Rejected(ResponseTooLarge), limits;
        }
        if encoding == "gzip" {
          var limit := maxResponseBytes - |content| + 1;
          limits := limits + [limit];
          var added := AddInflated(decoder, chunks[i], content, limit, Concat(chunks[..i]), Concat(chunks));
          if added.Rejected? {
            return added, limits;
          }
          content := added.bytes;
        } else {
          content := content + chunks[i];
        }
      }
      assert chunks[..|chunks|] == chunks;
      if encoding == "gzip" {
        assert decoder.given + decoder.pending == content;
        if !decoder.Eof() {
          return Rejected(InvalidResponse), limits;
        }
      }
      r := Content(content);
    }
  }

  /** The decoder has consumed all of the wire so far and handed over all of its output. */
  ghost predicate Caught<S>(decoder: Decompressor<S>, wire: Bytes, content: Bytes)
    reads decoder
  {
    && decoder.Valid() && decoder.pending == [] && decoder.unusedData == []
    && decoder.consumed == wire && decoder.given == content
  }

  /** Two complete members in a row are never a body, nor is a member with a proper part cut off. */
  lemma ExactlyOneMember<S>(codec: Codec<S>, cap: nat, member: Bytes, extra: Bytes)
    requires BodyOf(codec, "gzip", cap, member).Some? && extra != []
    ensures BodyOf(codec, "gzip", cap, member + extra).None?
    ensures forall n | 0 <= n < |member| :: BodyOf(codec, "gzip", cap, member[..n]).None?
  {
    DecodeAppend(codec, codec.start, member, extra);
    forall n | 0 <= n < |member| ensures BodyOf(codec, "gzip", cap, member[..n]).None? {
      assert member == member[..n] + member[n..];
      DecodeAppend(codec, codec.start, member[..n], member[n..]);
    }
  }
}
