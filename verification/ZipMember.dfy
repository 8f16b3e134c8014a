/** Reading one member of a backup: the header checks and the decoder with bounded output. */
module ZipMember {
  import opened Bytes
  import opened Wrappers
  import opened ZipDirectory

  const ZIP_CHUNK: nat := 64 * 1024
  const STORED: nat := 0
  const DEFLATED: nat := 8

  /** One call of a decompression object: the input it is given and the limit on its output. */
  datatype Call = Call(block: seq<byte>, max: nat)

  /** Its answer: the output, how much input is left over, whether the stream has ended, and input beyond that end. */
  datatype Answer = Refused | Given(output: seq<byte>, left: nat, eof: bool, unused: bool)

  /**
    `inflate(z) == Some(x)`: z is exactly one complete deflate stream, and it decodes to x. `answer(calls)` is what a
    new decompression object answers to the last of these calls.
   */
  datatype ZipCodec = ZipCodec(inflate: seq<byte> -> Option<seq<byte>>, crc: seq<byte> -> nat,
                               answer: seq<Call> -> Answer)

  function Latest(calls: seq<Call>): Call
    requires calls != []
  {
    calls[|calls| - 1]
  }

  function Earlier(calls: seq<Call>): seq<Call>
    requires calls != []
  {
    calls[..|calls| - 1]
  }

  /**
    At most `max` bytes of output, and input left over only when the output was limited; anything else is no answer.
   */
  function Answered(codec: ZipCodec, calls: seq<Call>): (a: Answer)
    requires calls != []
    ensures a.Given? ==> |a.output| <= Latest(calls).max && a.left <= |Latest(calls).block|
    ensures a.Given? && |a.output| < Latest(calls).max ==> a.left == 0
  {
    match codec.answer(calls)
    case Refused => Refused
    case Given(output, left, eof, unused) =>
      if |output| <= Latest(calls).max && left <= |Latest(calls).block| && (|output| < Latest(calls).max ==> left == 0)
      then Given(output, left, eof, unused) else Refused
  }

  /** All input taken in, and all output given out, by these calls. */
  ghost function Input(codec: ZipCodec, calls: seq<Call>): seq<byte> {
    if calls == [] then []
    else
      match Answered(codec, calls)
      case Refused => Input(codec, Earlier(calls))
      case Given(_, left, _, _) => Input(codec, Earlier(calls)) + Latest(calls).block[..|Latest(calls).block| - left]
  }

  ghost function Output(codec: ZipCodec, calls: seq<Call>): seq<byte> {
    if calls == [] then []
    else
      match Answered(codec, calls)
      case Refused => Output(codec, Earlier(calls))
      case Given(output, _, _, _) => Output(codec, Earlier(calls)) + output
  }

  /** `eof` of the decompression object. */
  predicate Ended(codec: ZipCodec, calls: seq<Call>) {
    calls != [] && Answered(codec, calls).Given? && Answered(codec, calls).eof
  }

  /** Every call brings the next piece of the stream. */
  ghost predicate Feeds(codec: ZipCodec, calls: seq<Call>, stream: seq<byte>) {
    calls != [] ==>
      && Feeds(codec, Earlier(calls), stream) && Latest(calls).max > 0
      && Input(codec, Earlier(calls)) + Latest(calls).block <= stream
  }

  /**
    The answer continues what the stream decodes to, and reports the end exactly there, unless its output was limited.
   */
  ghost predicate Continues(codec: ZipCodec, calls: seq<Call>, stream: seq<byte>, plain: seq<byte>)
    requires calls != []
  {
    && Answered(codec, calls).Given? && !Answered(codec, calls).unused && Output(codec, calls) <= plain
    && (Ended(codec, calls) ==> Input(codec, calls) == stream && Output(codec, calls) == plain)
    && (|Answered(codec, calls).output| < Latest(calls).max && Input(codec, calls) == stream ==> Ended(codec, calls))
  }

  /** The contract of zlib. A limited call may have taken in the last of the input and still hold output back. */
  ghost predicate Inflates(codec: ZipCodec) {
    forall calls: seq<Call>, stream: seq<byte> ::
      calls != [] && codec.inflate(stream).Some? && Feeds(codec, calls, stream) ==>
        Continues(codec, calls, stream, codec.inflate(stream).value)
  }

  /** zlib's decompression object. */
  class Inflater {
    const codec: ZipCodec
    var calls: seq<Call>
    var eof: bool
    var unusedData: bool
    var tail: seq<byte>

    constructor (codec: ZipCodec)
      ensures this.codec == codec && calls == [] && !eof
    {
      this.codec, calls, eof, unusedData, tail := codec, [], false, false, [];
    }

    method Decompress(block: seq<byte>, max: nat) returns (r: Result<seq<byte>>)
      modifies this
      ensures calls == old(calls) + [Call(block, max)] && eof == Ended(codec, calls)
      ensures match Answered(codec, calls)
              case Refused => r.Failure?
              case Given(output, left, _, unused) =>
                     r == Success(output) && tail == block[|block| - left..] && unusedData == unused
    {
      calls := calls + [Call(block, max)];
      eof := Ended(codec, calls);
      var answer := Answered(codec, calls);
      match answer
      case Refused => r := Failure("zlib_error");
      case Given(output, left, _, unused) =>
        r, tail, unusedData := Success(output), block[|block| - left..], unused;
    }
  }

  /** Where a member's data lies, by its local header. */
  function DataStart(raw: seq<byte>, item: Item): nat
    requires item.headerOffset + 30 <= |raw|
  {
    item.headerOffset + 30 + U16(raw, item.headerOffset + 26) + U16(raw, item.headerOffset + 28)
  }

  predicate LocalSignature(raw: seq<byte>, p: nat) {
    p + 4 <= |raw| && raw[p] == 0x50 && raw[p + 1] == 0x4B && raw[p + 2] == 3 && raw[p + 3] == 4
  }

  /** The header checks: local and directory headers agree, the data ends before the directory, the size is allowed. */
  predicate HeaderFits(raw: seq<byte>, item: Item, limit: nat, directoryOffset: nat)
    requires directoryOffset <= |raw|
  {
    var h := item.headerOffset;
    && h + 30 <= |raw|
    && LocalSignature(raw, h) && U16(raw, h + 6) == item.flags && U16(raw, h + 8) == item.compression
    && DataStart(raw, item) + item.compressedSize <= directoryOffset
    && raw[h + 30..h + 30 + U16(raw, h + 26)] == item.name
    && item.fileSize <= limit
    && (item.flags / 8 % 2 == 0 ==>
          U32(raw, h + 14) == item.crc && U32(raw, h + 18) == item.compressedSize && U32(raw, h + 22) == item.fileSize)
  }

  function MemberData(raw: seq<byte>, item: Item): seq<byte>
    requires item.headerOffset + 30 <= |raw| && DataStart(raw, item) + item.compressedSize <= |raw|
  {
    raw[DataStart(raw, item)..DataStart(raw, item) + item.compressedSize]
  }

  // ---- the producer's members ----

  lemma LocalFields(e: Entry)
    requires Writable(e)
    ensures var h := LocalHeader(e);
            && LocalSignature(h, 0) && U16(h, 6) == 0 && U16(h, 8) == e.compression && U16(h, 26) == |e.name|
               && U16(h, 28) == 0
            && U32(h, 14) == e.crc && U32(h, 18) == |e.data| && U32(h, 22) == e.fileSize
  {
    hide B0, B1, B2, B3;
    Short(|e.name|);
    Short(e.compression);
    Long(e.crc);
    Long(|e.data|);
    Long(e.fileSize);
  }

  /** Reading back a written member. */
  lemma LocalReadBack(raw: seq<byte>, p: nat, e: Entry, limit: nat, directoryOffset: nat)
    requires Writable(e) && At(raw, p, Local(e)) && p + |Local(e)| <= directoryOffset <= |raw| && e.fileSize <= limit
    ensures HeaderFits(raw, ItemOf(e, p), limit, directoryOffset)
    ensures MemberData(raw, ItemOf(e, p)) == e.data
  {
    LocalLies(raw, p, e);
    LocalFields(e);
    HeaderReadBack(raw, p, LocalHeader(e));
    hide LocalHeader, Local, At;
  }

  /** Header, name and data of a written member, one after the other. */
  lemma LocalLies(raw: seq<byte>, p: nat, e: Entry)
    requires At(raw, p, Local(e))
    ensures At(raw, p, LocalHeader(e)) && |Local(e)| == 30 + |e.name| + |e.data| && p + |Local(e)| <= |raw|
    ensures raw[p + 30..p + 30 + |e.name|] == e.name
    ensures raw[p + 30 + |e.name|..p + 30 + |e.name| + |e.data|] == e.data
  {
    var h := LocalHeader(e);
    assert Local(e) == h + (e.name + e.data);
    AtParts(raw, p, h, e.name + e.data);
    AtParts(raw, p + 30, e.name, e.data);
  }

  /** A header's fields are the same wherever it lies. */
  lemma HeaderReadBack(raw: seq<byte>, p: nat, h: seq<byte>)
    requires At(raw, p, h) && |h| == 30
    ensures p + 30 <= |raw| && (LocalSignature(raw, p) <==> LocalSignature(h, 0))
    ensures U16(raw, p + 6) == U16(h, 6) && U16(raw, p + 8) == U16(h, 8) && U16(raw, p + 26) == U16(h, 26)
            && U16(raw, p + 28) == U16(h, 28)
    ensures U32(raw, p + 14) == U32(h, 14) && U32(raw, p + 18) == U32(h, 18) && U32(raw, p + 22) == U32(h, 22)
  {
    hide U16, U32;
    AtIndex(raw, p, h);
    assert raw[p + 0] == h[0] && raw[p + 1] == h[1] && raw[p + 2] == h[2] && raw[p + 3] == h[3];
    AtU16(raw, p, h, 6);
    AtU16(raw, p, h, 8);
    AtU16(raw, p, h, 26);
    AtU16(raw, p, h, 28);
    AtU32(raw, p, h, 14);
    AtU32(raw, p, h, 18);
    AtU32(raw, p, h, 22);
  }

  /** Each member lies where the directory says. */
  lemma {:induction false} LocalAt(entries: seq<Entry>, k: nat)
    requires k < |entries|
    ensures At(Locals(entries), |Locals(entries[..k])|, Local(entries[k]))
    ensures |ItemsOf(entries)| == |entries| && ItemsOf(entries)[k] == ItemOf(entries[k], |Locals(entries[..k])|)
  {
    hide Local, ItemOf;
    var m := |entries| - 1;
    var before := entries[..m];
    if k < m {
      LocalAt(before, k);
      assert before[..k] == entries[..k];
    } else {
      ItemsLength(before);
      assert entries[..k] == before;
    }
  }

  lemma {:induction false} ItemsLength(entries: seq<Entry>)
    ensures |ItemsOf(entries)| == |entries|
  {
    if entries != [] {
      ItemsLength(entries[..|entries| - 1]);
    }
  }

  lemma AtWithin(raw: seq<byte>, front: seq<byte>, p: nat, s: seq<byte>)
    requires At(raw, 0, front) && At(front, p, s)
    ensures At(raw, p, s) && p + |s| <= |front| <= |raw|
  {
    assert raw[p..p + |s|] == raw[0..|front|][p..p + |s|];
  }

  /** Every member of a produced archive passes the header checks and holds its data. */
  lemma ProducedMember(entries: seq<Entry>, k: nat, limit: nat)
    requires k < |entries| && Writable(entries[k]) && entries[k].fileSize <= limit
    ensures |ItemsOf(entries)| == |entries| && |Locals(entries)| <= |Archive(entries)|
    ensures HeaderFits(Archive(entries), ItemsOf(entries)[k], limit, |Locals(entries)|)
    ensures MemberData(Archive(entries), ItemsOf(entries)[k]) == entries[k].data
  {
    hide *;
    var raw, p := Archive(entries), |Locals(entries[..k])|;
    ArchiveParts(entries);
    LocalAt(entries, k);
    AtWithin(raw, Locals(entries), p, Local(entries[k]));
    LocalReadBack(raw, p, entries[k], limit, |Locals(entries)|);
  }

  // ---- the decoder loops ----

  function BlockEnd(data: seq<byte>, position: nat): (end: nat)
    requires position <= |data|
    ensures position <= end <= |data| && (position < |data| ==> position < end)
  {
    if position + ZIP_CHUNK < |data| then position + ZIP_CHUNK else |data|
  }

  /** The limit on one call: a block, and never more than one byte beyond the declared size. */
  function Space(size: nat, got: nat): (max: nat)
    requires got <= size
  {
    if ZIP_CHUNK < size - got + 1 then ZIP_CHUNK else size - got + 1
  }

  /** The calls a member's loops make, and whether they were all answered within the declared size. */
  datatype Trace = Trace(calls: seq<Call>, ok: bool)

  ghost function Decoding(codec: ZipCodec, data: seq<byte>, size: nat, calls: seq<Call>, position: nat, rest: seq<byte>,
                          got: nat): (t: Trace)
    requires position <= |data| && got <= size
    decreases |data| - position, size - got, |rest|
  {
    if rest == [] then
      if position == |data| then Trace(calls, true)
      else Decoding(codec, data, size, calls, BlockEnd(data, position), data[position..BlockEnd(data, position)], got)
    else
      var next := calls + [Call(rest, Space(size, got))];
      match Answered(codec, next)
      case Refused => Trace(next, false)
      case Given(output, left, _, unused) =>
        if got + |output| > size || unused then Trace(next, false)
        else Decoding(codec, data, size, next, position, rest[|rest| - left..], got + |output|)
  }

  ghost function DecodingOf(codec: ZipCodec, data: seq<byte>, size: nat): (t: Trace) {
    Decoding(codec, data, size, [], 0, [], 0)
  }

  /** Fed in these blocks under these limits, the decoder reports its end by the last of the input. */
  ghost predicate Drains(codec: ZipCodec, data: seq<byte>, size: nat) {
    var t := DecodingOf(codec, data, size);
    t.ok && Ended(codec, t.calls)
  }

  lemma OneCall(codec: ZipCodec, calls: seq<Call>, call: Call)
    ensures Latest(calls + [call]) == call && Earlier(calls + [call]) == calls
    ensures var a := Answered(codec, calls + [call]);
            && Input(codec, calls + [call]) == Input(codec, calls)
               + (if a.Given? then call.block[..|call.block| - a.left] else [])
            && Output(codec, calls + [call]) == Output(codec, calls) + (if a.Given? then a.output else [])
  {
  }

  /** After each of these calls, the output was past the declared size by one byte at most. */
  ghost predicate Bounded(codec: ZipCodec, calls: seq<Call>, size: nat) {
    calls != [] ==> Bounded(codec, Earlier(calls), size) && |Output(codec, calls)| <= size + 1
  }

  lemma BoundedCall(codec: ZipCodec, calls: seq<Call>, call: Call, size: nat)
    requires Bounded(codec, calls, size) && |Output(codec, calls)| + call.max <= size + 1
    ensures Bounded(codec, calls + [call], size)
    ensures var a := Answered(codec, calls + [call]);
            |Output(codec, calls + [call])| == |Output(codec, calls)| + if a.Given? then |a.output| else 0
  {
    OneCall(codec, calls, call);
  }

  /** Whatever the data is, no call ever brings the output past the declared size by more than one byte. */
  lemma {:induction false} OutputIsBounded(codec: ZipCodec, data: seq<byte>, size: nat, calls: seq<Call>, position: nat,
                                           rest: seq<byte>, got: nat)
    requires position <= |data| && got == |Output(codec, calls)| <= size && Bounded(codec, calls, size)
    ensures Bounded(codec, Decoding(codec, data, size, calls, position, rest, got).calls, size)
    decreases |data| - position, size - got, |rest|
  {
    if rest == [] {
      if position < |data| {
        OutputIsBounded(codec, data, size, calls, BlockEnd(data, position), data[position..BlockEnd(data, position)],
                        got);
      }
    } else {
      var call := Call(rest, Space(size, got));
      var next, answer := calls + [call], Answered(codec, calls + [call]);
      BoundedCall(codec, calls, call, size);
      if answer.Given? && got + |answer.output| <= size && !answer.unused {
        OutputIsBounded(codec, data, size, next, position, rest[|rest| - answer.left..], got + |answer.output|);
      }
    }
  }

  /** The loops have taken in the data up to `rest` and given out the first bytes of the member. */
  ghost predicate InStep(codec: ZipCodec, data: seq<byte>, size: nat, plain: seq<byte>, calls: seq<Call>, position: nat,
                         rest: seq<byte>) {
    && position <= |data| && |plain| == size && Feeds(codec, calls, data)
    && Input(codec, calls) + rest == data[..position] && Output(codec, calls) <= plain
    && (calls != [] ==> Answered(codec, calls).Given?) && (position > 0 && rest == [] ==> calls != [])
    && (calls != [] && rest == [] && position == |data| && !Ended(codec, calls) ==>
        |Answered(codec, calls).output| == ZIP_CHUNK)
  }

  lemma CallContinues(codec: ZipCodec, data: seq<byte>, size: nat, plain: seq<byte>, calls: seq<Call>, position: nat,
                      rest: seq<byte>, call: Call)
    requires Inflates(codec) && codec.inflate(data) == Some(plain)
             && InStep(codec, data, size, plain, calls, position, rest)
    requires rest != [] && call.block == rest && call.max > 0
    ensures Feeds(codec, calls + [call], data) && Continues(codec, calls + [call], data, plain)
  {
    OneCall(codec, calls, call);
    assert Input(codec, calls) + rest <= data;
    assert Feeds(codec, calls + [call], data);
  }

  lemma TakenIn(input: seq<byte>, rest: seq<byte>, left: nat, read: seq<byte>)
    requires left <= |rest| && input + rest == read
    ensures input + rest[..|rest| - left] + rest[|rest| - left..] == read
  {
    assert rest[..|rest| - left] + rest[|rest| - left..] == rest;
  }

  /** One call on a genuine member. */
  lemma InStepCall(codec: ZipCodec, data: seq<byte>, size: nat, plain: seq<byte>, calls: seq<Call>, position: nat,
                   rest: seq<byte>, got: nat)
    requires Inflates(codec) && codec.inflate(data) == Some(plain)
             && InStep(codec, data, size, plain, calls, position, rest)
    requires rest != [] && got == |Output(codec, calls)|
    ensures var next := calls + [Call(rest, Space(size, got))];
            && Answered(codec, next).Given? && !Answered(codec, next).unused
               && got + |Answered(codec, next).output| <= size
            && |Output(codec, next)| == got + |Answered(codec, next).output|
            && InStep(codec, data, size, plain, next, position, rest[|rest| - Answered(codec, next).left..])
  {
    var call := Call(rest, Space(size, got));
    CallContinues(codec, data, size, plain, calls, position, rest, call);
    OneCall(codec, calls, call);
    hide Inflates, Feeds, Input, Output, Answered;
    TakenIn(Input(codec, calls), rest, Answered(codec, calls + [call]).left, data[..position]);
    assert data[..|data|] == data;
  }

  /** On a genuine member the loops never give up, and give out a prefix of it. */
  lemma {:induction false} GenuineDecoding(codec: ZipCodec, data: seq<byte>, size: nat, plain: seq<byte>,
                                           calls: seq<Call>, position: nat, rest: seq<byte>, got: nat)
    requires Inflates(codec) && codec.inflate(data) == Some(plain)
             && InStep(codec, data, size, plain, calls, position, rest)
    requires got == |Output(codec, calls)|
    ensures Decoding(codec, data, size, calls, position, rest, got).ok
    ensures InStep(codec, data, size, plain, Decoding(codec, data, size, calls, position, rest, got).calls, |data|, [])
    decreases |data| - position, size - got, |rest|
  {
    hide Continues, Inflates;
    if rest == [] {
      if position < |data| {
        var end := BlockEnd(data, position);
        assert data[..position] + data[position..end] == data[..end];
        assert Input(codec, calls) + [] == Input(codec, calls);
        GenuineDecoding(codec, data, size, plain, calls, end, data[position..end], got);
      }
    } else {
      InStepCall(codec, data, size, plain, calls, position, rest, got);
      var next := calls + [Call(rest, Space(size, got))];
      var answer := Answered(codec, next);
      GenuineDecoding(codec, data, size, plain, next, position, rest[|rest| - answer.left..], got + |answer.output|);
    }
  }

  /**
    A genuine member decodes to a prefix of what was packed, to all of it if the decoder drains. It can only fail to
    drain when the very last call was cut off after a full 64 KiB of output, so never below 64 KiB.
   */
  lemma GenuineMember(codec: ZipCodec, data: seq<byte>, plain: seq<byte>)
    requires Inflates(codec) && codec.inflate(data) == Some(plain) && data != []
    ensures var t := DecodingOf(codec, data, |plain|);
            && t.ok && Output(codec, t.calls) <= plain
               && (Drains(codec, data, |plain|) ==> Output(codec, t.calls) == plain)
            && (!Drains(codec, data, |plain|) ==> 
                  t.calls != [] && Answered(codec, t.calls).Given? && |Answered(codec, t.calls).output| == ZIP_CHUNK)
    ensures |plain| < ZIP_CHUNK ==> Drains(codec, data, |plain|)
  {
    GenuineDecoding(codec, data, |plain|, plain, [], 0, [], 0);
    var t := DecodingOf(codec, data, |plain|);
    if Ended(codec, t.calls) {
      assert Continues(codec, t.calls, data, plain);
    }
  }

  // ---- a decoder that holds its output back ----

  /** A toy format: as many ones as the content has bytes, a zero, and the content. */
  function Hoard(x: seq<byte>): (z: seq<byte>)
    ensures |z| == 2 * |x| + 1
  {
    seq(|x|, _ => 1) + [0] + x
  }

  function LeadingOnes(z: seq<byte>): (n: nat)
    ensures n <= |z|
  {
    if z == [] || z[0] != 1 then 0 else 1 + LeadingOnes(z[1..])
  }

  function Unhoard(z: seq<byte>): (x: Option<seq<byte>>)
    ensures x.Some? ==> |z| == 2 * |x.value| + 1
  {
    var n := LeadingOnes(z);
    if |z| == 2 * n + 1 && z[n] == 0 then Some(z[n + 1..]) else None
  }

  lemma {:induction false} OnesAndZero(n: nat, rest: seq<byte>)
    ensures LeadingOnes(seq(n, _ => 1) + [0] + rest) == n
  {
    if n > 0 {
      OnesAndZero(n - 1, rest);
      var z: seq<byte> := seq(n, _ => 1) + [0] + rest;
      assert z[1..] == seq(n - 1, _ => 1) + [0] + rest;
    }
  }

  lemma HoardIsUndone(x: seq<byte>)
    ensures Unhoard(Hoard(x)) == Some(x)
  {
    OnesAndZero(|x|, x);
    assert Hoard(x)[|x| + 1..] == x;
  }

  lemma {:induction false} OnesOfPrefix(z: seq<byte>, w: seq<byte>)
    requires z <= w && LeadingOnes(z) < |z|
    ensures LeadingOnes(w) == LeadingOnes(z)
  {
    if z[0] == 1 {
      OnesOfPrefix(z[1..], w[1..]);
    }
  }

  /** No stream is the beginning of another. */
  lemma OneStream(z: seq<byte>, w: seq<byte>)
    requires z <= w && Unhoard(z).Some? && Unhoard(w).Some?
    ensures z == w
  {
    OnesOfPrefix(z, w);
  }

  function Received(calls: seq<Call>): seq<byte> {
    if calls == [] then [] else Received(Earlier(calls)) + Latest(calls).block
  }

  /** How much has been given out: nothing before the whole stream has come, then as much as the limits allow. */
  function Released(calls: seq<Call>): (n: nat)
    ensures Unhoard(Received(calls)).Some? ==> n <= |Unhoard(Received(calls)).value|
  {
    if calls == [] || Unhoard(Received(calls)).None? then 0
    else
      var before, size := Released(Earlier(calls)), |Unhoard(Received(calls)).value|;
      if before + Latest(calls).max < size then before + Latest(calls).max else size
  }

  function HoardingAnswer(calls: seq<Call>): Answer {
    if calls == [] then Refused
    else if Unhoard(Received(calls)).None? then Given([], 0, false, false)
    else
      var before, after := Released(Earlier(calls)), Released(calls);
      if before > after then Refused
      else Given(Unhoard(Received(calls)).value[before..after], 0, after - before < Latest(calls).max, false)
  }

  function Hoarder(): ZipCodec {
    ZipCodec(Unhoard, data => 0, HoardingAnswer)
  }

  /** On the pieces of a stream it takes in everything, and holds everything back until it has the whole stream. */
  ghost predicate Hoarding(calls: seq<Call>, stream: seq<byte>, plain: seq<byte>) {
    && Input(Hoarder(), calls) == Received(calls) <= stream && Released(calls) <= |plain|
    && Output(Hoarder(), calls) == plain[..Released(calls)] && (Received(calls) != stream ==> Released(calls) == 0)
  }

  lemma {:induction false} Hoards(calls: seq<Call>, stream: seq<byte>, plain: seq<byte>)
    requires Unhoard(stream) == Some(plain) && Feeds(Hoarder(), calls, stream)
    ensures Hoarding(calls, stream, plain)
    ensures calls != [] ==> Answered(Hoarder(), calls) == HoardingAnswer(calls) && HoardingAnswer(calls).Given?
  {
    if calls != [] {
      Hoards(Earlier(calls), stream, plain);
      HoardsOne(calls, stream, plain);
    }
  }

  lemma HoardsOne(calls: seq<Call>, stream: seq<byte>, plain: seq<byte>)
    requires Unhoard(stream) == Some(plain) && calls != [] && Feeds(Hoarder(), calls, stream)
    requires Hoarding(Earlier(calls), stream, plain)
    ensures Hoarding(calls, stream, plain)
    ensures Answered(Hoarder(), calls) == HoardingAnswer(calls) && HoardingAnswer(calls).Given?
  {
    assert Received(calls) <= stream;
    ReleasesMore(calls, stream, plain);
    HoardingAnswered(calls);
    TakesAll(Hoarder(), calls);
    GivesMore(Hoarder(), calls, plain, Released(Earlier(calls)), Released(calls));
  }

  lemma GivesMore(codec: ZipCodec, calls: seq<Call>, plain: seq<byte>, before: nat, after: nat)
    requires calls != [] && before <= after <= |plain| && Answered(codec, calls).Given?
    requires Output(codec, calls) == Output(codec, Earlier(calls)) + Answered(codec, calls).output
    requires Output(codec, Earlier(calls)) == plain[..before] && Answered(codec, calls).output == plain[before..after]
    ensures Output(codec, calls) == plain[..after]
  {
    assert plain[..before] + plain[before..after] == plain[..after];
  }

  lemma HoardingAnswered(calls: seq<Call>)
    requires calls != [] && HoardingAnswer(calls).Given? && HoardingAnswer(calls).left == 0
    requires |HoardingAnswer(calls).output| <= Latest(calls).max
    ensures Answered(Hoarder(), calls) == HoardingAnswer(calls)
  {
  }

  lemma TakesAll(codec: ZipCodec, calls: seq<Call>)
    requires calls != [] && Answered(codec, calls).Given? && Answered(codec, calls).left == 0
    ensures Input(codec, calls) == Input(codec, Earlier(calls)) + Latest(calls).block
    ensures Output(codec, calls) == Output(codec, Earlier(calls)) + Answered(codec, calls).output
  {
    var block := Latest(calls).block;
    assert block[..|block| - 0] == block;
  }

  lemma ReleasesMore(calls: seq<Call>, stream: seq<byte>, plain: seq<byte>)
    requires Unhoard(stream) == Some(plain) && calls != [] && Received(calls) <= stream
    requires Received(Earlier(calls)) <= stream
             && (Received(Earlier(calls)) != stream ==> Released(Earlier(calls)) == 0)
    requires Released(Earlier(calls)) <= |plain|
    ensures Released(Earlier(calls)) <= Released(calls) <= |plain|
            && (Received(calls) != stream ==> Released(calls) == 0)
    ensures HoardingAnswer(calls).Given? && HoardingAnswer(calls).left == 0
            && |HoardingAnswer(calls).output| <= Latest(calls).max
    ensures HoardingAnswer(calls).output == plain[Released(Earlier(calls))..Released(calls)]
  {
    assert |Received(Earlier(calls))| <= |Received(calls)| <= |stream|;
    assert Received(Earlier(calls)) == stream ==> Received(calls) == stream;
    if Unhoard(Received(calls)).Some? {
      OneStream(Received(calls), stream);
    }
  }

  lemma HoardingInflates()
    ensures Inflates(Hoarder())
  {
    forall calls: seq<Call>, stream: seq<byte> | calls != [] && Hoarder().inflate(stream).Some?
        && Feeds(Hoarder(), calls, stream)
      ensures Continues(Hoarder(), calls, stream, Hoarder().inflate(stream).value)
    {
      var plain := Unhoard(stream).value;
      Hoards(calls, stream, plain);
      Hoards(Earlier(calls), stream, plain);
      assert plain[..|plain|] == plain;
    }
  }

  /** Block by block nothing comes out, and the last block brings 64 KiB, where the loops stop. */
  /** One block of the stream fed to the hoarder, and the decoding that goes on from there. */
  lemma HoardingBlock(x: seq<byte>, calls: seq<Call>, position: nat)
    requires |x| >= ZIP_CHUNK && position < |Hoard(x)| && Feeds(Hoarder(), calls, Hoard(x))
             && Received(calls) == Hoard(x)[..position]
    ensures var data, end := Hoard(x), BlockEnd(Hoard(x), position);
            var next := calls + [Call(data[position..end], ZIP_CHUNK)];
            && Feeds(Hoarder(), next, data) && Received(next) == data[..end]
            && Decoding(Hoarder(), data, |x|, calls, position, [], 0)
               == Decoding(Hoarder(), data, |x|, next, end, [], if end < |data| then 0 else ZIP_CHUNK)
  {
    hide Hoard, Unhoard, Released, Received, HoardingAnswer, Answered, Decoding;
    HoardIsUndone(x);
    var codec, data, end := Hoarder(), Hoard(x), BlockEnd(Hoard(x), position);
    var call := Call(data[position..end], ZIP_CHUNK);
    var next := calls + [call];
    OneCall(codec, calls, call);
    Hoards(calls, data, x);
    assert data[..position] + call.block == data[..end] <= data;
    HoardingCall(x, calls, position);
    Hoards(next, data, x);
    NextBlock(codec, data, |x|, calls, position, 0);
    DecodingCall(codec, data, |x|, calls, end, call.block, 0);
    assert call.block[|call.block| - 0..] == [];
  }

  lemma {:induction false} HoardingStops(x: seq<byte>, calls: seq<Call>, position: nat)
    requires |x| >= ZIP_CHUNK && position < |Hoard(x)| && Feeds(Hoarder(), calls, Hoard(x))
             && Received(calls) == Hoard(x)[..position]
    ensures !Ended(Hoarder(), Decoding(Hoarder(), Hoard(x), |x|, calls, position, [], 0).calls)
    decreases |Hoard(x)| - position
  {
    hide Hoard, Unhoard, Released, Received, HoardingAnswer, Answered, Decoding;
    HoardingBlock(x, calls, position);
    var codec, data, end := Hoarder(), Hoard(x), BlockEnd(Hoard(x), position);
    var next := calls + [Call(data[position..end], ZIP_CHUNK)];
    if end < |data| {
      HoardingStops(x, next, end);
    } else {
      HoardIsUndone(x);
      OneCall(codec, calls, Call(data[position..end], ZIP_CHUNK));
      Hoards(calls, data, x);
      Hoards(next, data, x);
      HoardingCall(x, calls, position);
      LastBlock(codec, data, |x|, next, ZIP_CHUNK);
    }
  }

  lemma NextBlock(codec: ZipCodec, data: seq<byte>, size: nat, calls: seq<Call>, position: nat, got: nat)
    requires position < |data| && got <= size
    ensures Decoding(codec, data, size, calls, position, [], got)
            == Decoding(codec, data, size, calls, BlockEnd(data, position), data[position..BlockEnd(data, position)],
                        got)
  {
  }

  lemma LastBlock(codec: ZipCodec, data: seq<byte>, size: nat, calls: seq<Call>, got: nat)
    requires got <= size
    ensures Decoding(codec, data, size, calls, |data|, [], got) == Trace(calls, true)
  {
  }

  lemma HoardingCall(x: seq<byte>, calls: seq<Call>, position: nat)
    requires |x| >= ZIP_CHUNK && position < |Hoard(x)| && Received(calls) == Hoard(x)[..position]
             && Released(calls) == 0
    ensures var end := BlockEnd(Hoard(x), position);
            var next := calls + [Call(Hoard(x)[position..end], ZIP_CHUNK)];
            && Received(next) == Hoard(x)[..end]
            && HoardingAnswer(next) == Given(if end < |Hoard(x)| then [] else x[..ZIP_CHUNK], 0, false, false)
  {
    var data, end := Hoard(x), BlockEnd(Hoard(x), position);
    HoardIsUndone(x);
    var next := calls + [Call(data[position..end], ZIP_CHUNK)];
    assert Earlier(next) == calls;
    hide Hoard, Unhoard;
    assert data[..position] + data[position..end] == data[..end];
    if end < |data| {
      PartIsNoStream(data, end);
    } else {
      assert data[..end] == data;
    }
  }

  lemma PartIsNoStream(stream: seq<byte>, end: nat)
    requires Unhoard(stream).Some? && end < |stream|
    ensures Unhoard(stream[..end]).None?
  {
    if Unhoard(stream[..end]).Some? {
      OneStream(stream[..end], stream);
    }
  }

  /**
    A lawful decoder for data of every kind under which a member is read back exactly if it is below 64 KiB: it takes
    in all input while it holds the output back, and the loops stop with the input.
   */
  lemma HoardingIsLawful(x: seq<byte>)
    ensures Inflates(Hoarder()) && Hoarder().inflate(Hoard(x)) == Some(x)
    ensures Drains(Hoarder(), Hoard(x), |x|) <==> |x| < ZIP_CHUNK
  {
    HoardingInflates();
    HoardIsUndone(x);
    hide Inflates;
    if |x| < ZIP_CHUNK {
      GenuineMember(Hoarder(), Hoard(x), x);
    } else {
      assert Hoard(x)[..0] == [];
      HoardingStops(x, [], 0);
    }
  }

  // ---- reading a member ----

  /** One stored block after the other. */
  method ReadStored(data: seq<byte>, fileSize: nat, limit: nat) returns (r: Result<seq<byte>>)
    requires fileSize <= limit
    ensures r.Success? <==> |data| <= fileSize
    ensures r.Success? ==> r.value == data
  {
    var result: seq<byte> := [];
    var position := 0;
    while position < |data|
      invariant position <= |data| && result == data[..position] && |result| <= fileSize
    {
      result := result + data[position..BlockEnd(data, position)];
      if |result| > fileSize || |result| > limit {
        return Failure("backup_invalid");
      }
      position := BlockEnd(data, position);
    }
    r := Success(result);
  }

  lemma DecodingCall(codec: ZipCodec, data: seq<byte>, size: nat, calls: seq<Call>, position: nat, rest: seq<byte>,
                     got: nat)
    requires position <= |data| && got <= size && rest != []
    ensures var next := calls + [Call(rest, Space(size, got))];
            var a := Answered(codec, next);
            Decoding(codec, data, size, calls, position, rest, got) ==
            if a.Refused? || got + |a.output| > size || a.unused then Trace(next, false)
            else Decoding(codec, data, size, next, position, rest[|rest| - a.left..], got + |a.output|)
  {
  }

  /** The inner loop: one block, as often as the decoder leaves input over. */
  method Feed(decoder: Inflater, block: seq<byte>, before: seq<byte>, fileSize: nat, limit: nat, ghost data: seq<byte>,
              ghost position: nat)
    returns (r: Result<seq<byte>>)
    requires |before| <= fileSize <= limit && position <= |data| && before == Output(decoder.codec, decoder.calls)
    requires decoder.eof == Ended(decoder.codec, decoder.calls)
    modifies decoder
    ensures r.Success? ==> |r.value| <= fileSize && r.value == Output(decoder.codec, decoder.calls)
                           && decoder.eof == Ended(decoder.codec, decoder.calls)
    ensures Decoding(decoder.codec, data, fileSize, old(decoder.calls), position, block, |before|)
            == if r.Failure? then Trace(decoder.calls, false)
               else Decoding(decoder.codec, data, fileSize, decoder.calls, position, [], |r.value|)
  {
    hide Decoding, Output, Answered;
    var result, rest := before, block;
    while rest != []
      invariant |result| <= fileSize && result == Output(decoder.codec, decoder.calls)
                && decoder.eof == Ended(decoder.codec, decoder.calls)
      invariant Decoding(decoder.codec, data, fileSize, old(decoder.calls), position, block, |before|)
                == Decoding(decoder.codec, data, fileSize, decoder.calls, position, rest, |result|)
      decreases fileSize - |result|, |rest|
    {
      OneCall(decoder.codec, decoder.calls, Call(rest, Space(fileSize, |result|)));
      DecodingCall(decoder.codec, data, fileSize, decoder.calls, position, rest, |result|);
      var decoded := decoder.Decompress(rest, Space(fileSize, |result|));
      if decoded.Failure? {
        return Failure("backup_invalid");
      }
      result := result + decoded.value;
      if |result| > fileSize || |result| > limit || decoder.unusedData {
        return Failure("backup_invalid");
      }
      rest := decoder.tail;
    }
    r := Success(result);
  }

  /** The outer loop, over blocks of 64 KiB of compressed data. */
  method ReadDeflated(codec: ZipCodec, data: seq<byte>, fileSize: nat, limit: nat)
    returns (r: Result<seq<byte>>, eof: bool)
    requires fileSize <= limit
    ensures r.Success? <==> DecodingOf(codec, data, fileSize).ok
    ensures r.Success? ==> |r.value| <= fileSize && r.value == Output(codec, DecodingOf(codec, data, fileSize).calls)
    ensures r.Success? ==> eof == Ended(codec, DecodingOf(codec, data, fileSize).calls)
  {
    var decoder := new Inflater(codec);
    var result: seq<byte> := [];
    var position := 0;
    while position < |data|
      invariant position <= |data| && |result| <= fileSize && result == Output(codec, decoder.calls) && fresh(decoder)
      invariant decoder.codec == codec && decoder.eof == Ended(codec, decoder.calls)
      invariant DecodingOf(codec, data, fileSize) == Decoding(codec, data, fileSize, decoder.calls, position, [],
                |result|)
    {
      var end := BlockEnd(data, position);
      r := Feed(decoder, data[position..end], result, fileSize, limit, data, end);
      eof := false;
      if r.Failure? {
        return;
      }
      result, position := r.value, end;
    }
    r, eof := Success(result), decoder.eof;
  }

  /**
    What a member holds for its reader: data of its declared length and checksum, decoded to its end if it is deflated.
   */
  ghost function MemberContent(codec: ZipCodec, raw: seq<byte>, item: Item, limit: nat,
                               directoryOffset: nat): (x: Option<seq<byte>>)
    requires directoryOffset <= |raw|
  {
    if !HeaderFits(raw, item, limit, directoryOffset) then None
    else
      var data := MemberData(raw, item);
      var content := if item.compression != DEFLATED then data
          else Output(codec, DecodingOf(codec, data, item.fileSize).calls);
      if (item.compression == DEFLATED ==> Drains(codec, data, item.fileSize)) && |content| == item.fileSize
         && codec.crc(content) == item.crc
      then Some(content) else None
  }

  /** A genuine member holds what was packed, exactly when it drains. */
  lemma GenuineContent(codec: ZipCodec, raw: seq<byte>, item: Item, limit: nat, directoryOffset: nat, plain: seq<byte>)
    requires directoryOffset <= |raw| && HeaderFits(raw, item, limit, directoryOffset)
    requires item.compression == DEFLATED && item.compressedSize > 0 && Inflates(codec)
    requires codec.inflate(MemberData(raw, item)) == Some(plain) && |plain| == item.fileSize
             && codec.crc(plain) == item.crc
    ensures MemberContent(codec, raw, item, limit, directoryOffset)
            == if Drains(codec, MemberData(raw, item), item.fileSize) then Some(plain) else None
  {
    GenuineMember(codec, MemberData(raw, item), plain);
  }

  /**
    `_read_member`. On any bytes it ends, and returns exactly what the member holds, which has its declared length and
    checksum within the limit.
   */
  method ReadMember(codec: ZipCodec, raw: seq<byte>, item: Item, limit: nat, directoryOffset: nat)
    returns (r: Result<seq<byte>>)
    requires directoryOffset <= |raw|
    ensures r.Success? <==> MemberContent(codec, raw, item, limit, directoryOffset).Some?
    ensures r.Success? ==> r.value == MemberContent(codec, raw, item, limit, directoryOffset).value
    ensures r.Success? ==> HeaderFits(raw, item, limit, directoryOffset)
                           && |r.value| == item.fileSize <= limit && codec.crc(r.value) == item.crc
    ensures HeaderFits(raw, item, limit, directoryOffset) && item.compression == DEFLATED && item.compressedSize > 0
            && Inflates(codec) ==>
              var data := MemberData(raw, item);
              var plain := codec.inflate(data);
              plain.Some? && |plain.value| == item.fileSize && codec.crc(plain.value) == item.crc ==>
                && (r.Success? <==> Drains(codec, data, item.fileSize))
                && (r.Success? ==> r.value == plain.value)
  {
    if item.headerOffset + 30 > |raw| || !HeaderFits(raw, item, limit, directoryOffset) {
      return Failure("backup_invalid");
    }
    var data := MemberData(raw, item);
    if item.compression != DEFLATED {
      r := ReadStored(data, item.fileSize, limit);
      if r.Success? && (|r.value| != item.fileSize || codec.crc(r.value) != item.crc) {
        r := Failure("backup_invalid");
      }
      return;
    }
    var eof;
    r, eof := ReadDeflated(codec, data, item.fileSize, limit);
    if r.Success? && (!eof || |r.value| != item.fileSize || codec.crc(r.value) != item.crc) {
      r := Failure("backup_invalid");
    }
    if Inflates(codec) && codec.inflate(data).Some? && |codec.inflate(data).value| == item.fileSize && data != [] {
      GenuineMember(codec, data, codec.inflate(data).value);
    }
  }
}
