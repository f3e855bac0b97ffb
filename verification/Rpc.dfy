/** The V2 request protocol: the client `NetworkBattery` builds a frame for each call, the server's
    `connection_handler` takes it apart and performs the call on its own battery.

    A frame is its length (32 bits), eight 64-bit header words, the name of the battery and a NUL. What arrives on a
    connection is a byte sequence; reading `n` bytes gives fewer only at its end. Time points are nanoseconds
    since the epoch. */
module Rpc {
  import opened Wire

  type Name = seq<Byte>

  datatype CTimestamp = CTimestamp(secs: int, msec: int)

  datatype Header = Header(
    func: int, remoteNameLength: int, currentMA: int, isGreaterThan: int,
    whenToSet: CTimestamp, untilWhen: CTimestamp)

  const GET_STATUS := 2
  const REFRESH := 1
  const SET_CURRENT := 3

  /** The header as memory: eight words in the order of the fields. */
  function Words(h: Header): (words: seq<int>)
    ensures |words| == 8 && FromWords(words) == h
  {
    [h.func, h.remoteNameLength, h.currentMA, h.isGreaterThan,
     h.whenToSet.secs, h.whenToSet.msec, h.untilWhen.secs, h.untilWhen.msec]
  }

  function FromWords(w: seq<int>): (h: Header)
    requires |w| == 8
  {
    Header(w[0], w[1], w[2], w[3], CTimestamp(w[4], w[5]), CTimestamp(w[6], w[7]))
  }

  lemma WordsFromWords(w: seq<int>)
    requires |w| == 8
    ensures Words(FromWords(w)) == w
  {
  }

  /** Every field is a signed 64-bit number. */
  ghost predicate Int64(h: Header)
  {
    forall i :: 0 <= i < 8 ==> Fits(true, 8, Words(h)[i])
  }

  /** The value of the 32-bit length field. */
  function Length(name: Name): (r: nat)
  {
    (65 + |name|) % 0x1_0000_0000
  }

  function Frame(h: Header, name: Name): (s: seq<Byte>)
    ensures |s| == 69 + |name|
  {
    Bytes(Length(name), 4) + (WordBytes(Words(h)) + name + [0])
  }

  datatype Decoded = Failed(code: int) | Request(header: Header, name: Name, rest: seq<Byte>)

  function FirstOf(stream: seq<Byte>, n: nat): (s: seq<Byte>)
  {
    if n <= |stream| then stream[..n] else stream
  }

  /** The length field of a stream. */
  function Announced(stream: seq<Byte>): (n: nat)
    requires |stream| >= 4
  {
    PatternRange(stream[..4]);
    Pattern(stream[..4])
  }

  /** What the server understands: the first request of a stream, or its error code. The name is what lies
      between the header and the last byte. */
  function Decode(stream: seq<Byte>): (r: Decoded)
  {
    if |stream| < 4 then Failed(-5)
    else if Announced(stream) == 0 then Failed(-2)
    else
      var data := FirstOf(stream[4..], Announced(stream));
      if |data| < 64 then Failed(-3)
      else Request(FromWords(WordsIn(data, 8)), if |data| == 64 then [] else data[64..|data| - 1], stream[4 + |data|..])
  }

  // ----- round trips -----

  lemma SpanOf4()
    ensures Span(4) == 0x1_0000_0000
  {
    SpanGrows(3);
    SpanGrows(2);
    SpanGrows(1);
    SpanGrows(0);
  }

  lemma AnnouncedLength(name: Name, more: seq<Byte>)
    ensures Announced(Bytes(Length(name), 4) + more) == Length(name)
  {
    SpanOf4();
    assert (Bytes(Length(name), 4) + more)[..4] == Bytes(Length(name), 4);
    PatternOfBytes(Length(name), 4);
  }

  lemma WholeDecodes(stream: seq<Byte>, data: seq<Byte>, rest: seq<Byte>)
    requires |stream| >= 4 && stream[4..] == data + rest && Announced(stream) == |data| >= 65
    ensures Decode(stream) == Request(FromWords(WordsIn(data, 8)), data[64..|data| - 1], rest)
  {
    hide WordsIn, Announced, FromWords;
    assert stream[4..][..|data|] == data;
    assert stream[4 + |data|..] == stream[4..][|data|..] == rest;
  }

  lemma FrameDecodes(h: Header, name: Name, more: seq<Byte>)
    requires Int64(h) && 65 + |name| < 0x1_0000_0000
    ensures Decode(Frame(h, name) + more) == Request(h, name, more)
  {
    hide Bytes, Int64, Announced, Words, FromWords, WordsIn, WordBytes, Decode;
    var body := WordBytes(Words(h)) + name + [0];
    var stream := Frame(h, name) + more;
    assert stream == Bytes(Length(name), 4) + (body + more);
    AnnouncedLength(name, body + more);
    assert stream[4..] == body + more;
    WholeDecodes(stream, body, more);
    assert body == WordBytes(Words(h)) + (name + [0]);
    HeaderReadBack(h, name + [0]);
    assert body[64..|body| - 1] == name;
  }

  lemma HeaderReadBack(h: Header, more: seq<Byte>)
    requires Int64(h)
    ensures FromWords(WordsIn(WordBytes(Words(h)) + more, 8)) == h
  {
    WordsReadBack(Words(h), more);
  }

  /** The server recovers header and name from the client's frame, and leaves what follows it, exactly when the
      frame's length fits into 32 bits. */
  lemma FrameRoundTrip(h: Header, name: Name, more: seq<Byte>)
    requires Int64(h)
    ensures Decode(Frame(h, name) + more) == Request(h, name, more) <==> 65 + |name| < 0x1_0000_0000
  {
    hide Bytes, Pattern, Int64, WordsIn;
    if 65 + |name| < 0x1_0000_0000 {
      FrameDecodes(h, name, more);
    } else {
      var body := WordBytes(Words(h)) + name + [0];
      assert Frame(h, name) + more == Bytes(Length(name), 4) + (body + more);
      AnnouncedLength(name, body + more);
      assert Length(name) < 65 + |name|;
    }
  }

  /** A stream that starts with a whole request: the announced bytes are there and the last one is NUL. */
  predicate WholeRequest(stream: seq<Byte>)
  {
    |stream| >= 4 && 65 <= Announced(stream) <= |stream| - 4 && stream[3 + Announced(stream)] == 0
  }

  /** Conversely, what the server accepts is the client's frame for the request it understands, unless bytes are
      missing or the last one is not NUL, neither of which the server looks at. */
  lemma AcceptedIsFrame(stream: seq<Byte>)
    requires Decode(stream).Request?
    ensures var r := Decode(stream);
            && Int64(r.header)
            && (stream == Frame(r.header, r.name) + r.rest && 65 + |r.name| < 0x1_0000_0000 <==> WholeRequest(stream))
  {
    var data := FirstOf(stream[4..], Announced(stream));
    WordsFromWords(WordsIn(data, 8));
    if WholeRequest(stream) {
      WholeIsFrame(stream, data);
    }
    var r := Decode(stream);
    if stream == Frame(r.header, r.name) + r.rest && 65 + |r.name| < 0x1_0000_0000 {
      FrameIsWhole(r.header, r.name, r.rest);
    }
  }

  lemma FrameIsWhole(h: Header, name: Name, more: seq<Byte>)
    requires 65 + |name| < 0x1_0000_0000
    ensures WholeRequest(Frame(h, name) + more)
  {
    hide Bytes, Pattern;
    var body := WordBytes(Words(h)) + name + [0];
    assert Frame(h, name) + more == Bytes(Length(name), 4) + (body + more);
    AnnouncedLength(name, body + more);
  }

  lemma WholeIsFrame(stream: seq<Byte>, data: seq<Byte>)
    requires WholeRequest(stream) && data == stream[4..4 + Announced(stream)]
    ensures Decode(stream).Request?
    ensures var r := Decode(stream); stream == Frame(r.header, r.name) + r.rest && 65 + |r.name| < 0x1_0000_0000
  {
    hide Bytes, Announced, Words, FromWords, WordsIn, WordBytes, Decode;
    var n := Announced(stream);
    assert stream[4..] == data + stream[4 + n..];
    WholeDecodes(stream, data, stream[4 + n..]);
    DataIsBody(data);
    AnnouncedBytes(stream);
    assert stream == stream[..4] + data + stream[4 + n..];
  }

  lemma DataIsBody(data: seq<Byte>)
    requires |data| >= 65 && data[|data| - 1] == 0
    ensures data == WordBytes(Words(FromWords(WordsIn(data, 8)))) + data[64..|data| - 1] + [0]
  {
    hide WordsIn, WordBytes;
    WordsFromWords(WordsIn(data, 8));
    WordsWriteBack(data, 8);
  }

  lemma AnnouncedBytes(stream: seq<Byte>)
    requires |stream| >= 4
    ensures Announced(stream) < 0x1_0000_0000 && Bytes(Announced(stream), 4) == stream[..4]
  {
    SpanOf4();
    PatternRange(stream[..4]);
    WriteBack(false, stream[..4]);
  }

  // ----- what is where in a frame -----

  lemma {:induction false} WordBytesAt(words: seq<int>, i: nat)
    requires i < |words|
    ensures WordBytes(words)[8 * i..8 * i + 8] == Bytes(words[i], 8)
  {
    hide Bytes;
    var n := |words| - 1;
    if i < n {
      WordBytesAt(words[..n], i);
      assert WordBytes(words)[8 * i..8 * i + 8] == WordBytes(words[..n])[8 * i..8 * i + 8];
    }
  }

  /** The fields in the order of the struct. */
  function Field(h: Header, i: nat): (r: int)
  {
    match i
    case 0 => h.func
    case 1 => h.remoteNameLength
    case 2 => h.currentMA
    case 3 => h.isGreaterThan
    case 4 => h.whenToSet.secs
    case 5 => h.whenToSet.msec
    case 6 => h.untilWhen.secs
    case _ => h.untilWhen.msec
  }

  lemma FieldIsWord(h: Header, i: nat)
    requires i < 8
    ensures Words(h)[i] == Field(h, i)
  {
  }

  /** The fields of a request stand behind the length and before the name, eight bytes each. */
  lemma FrameLayout(h: Header, name: Name, i: nat)
    requires i < 8
    ensures var s := Frame(h, name);
            && s[..4] == Bytes((65 + |name|) % 0x1_0000_0000, 4)
            && s[4 + 8 * i..12 + 8 * i] == Bytes(Field(h, i), 8)
            && s[68..68 + |name|] == name && s[68 + |name|] == 0
  {
    hide Bytes, WordBytes, Words, Field;
    FieldIsWord(h, i);
    WordBytesAt(Words(h), i);
    LaidOut(Bytes(Length(name), 4), WordBytes(Words(h)), name, i);
  }

  lemma LaidOut(length: seq<Byte>, header: seq<Byte>, name: Name, i: nat)
    requires |length| == 4 && |header| == 64 && i < 8
    ensures var s := length + (header + name + [0]);
            && s[..4] == length && s[4 + 8 * i..12 + 8 * i] == header[8 * i..8 * i + 8]
            && s[68..68 + |name|] == name && s[68 + |name|] == 0
  {
    var s := length + (header + name + [0]);
    assert s[4 + 8 * i..12 + 8 * i] == header[8 * i..8 * i + 8];
    assert s[68..68 + |name|] == name;
  }

  // ----- one request after another -----

  datatype Call = Call(header: Header, name: Name)

  function Frames(calls: seq<Call>): (s: seq<Byte>)
  {
    if calls == [] then [] else Frame(calls[0].header, calls[0].name) + Frames(calls[1..])
  }

  /** The server's loop over a connection, up to the first error. */
  function DecodeAll(stream: seq<Byte>): (calls: seq<Call>)
    decreases |stream|
  {
    match Decode(stream)
    case Failed(_) => []
    case Request(header, name, rest) => [Call(header, name)] + DecodeAll(rest)
  }

  predicate Sendable(c: Call)
  {
    65 + |c.name| < 0x1_0000_0000
  }

  /** Frames sent one after another are taken apart at the right places. */
  lemma {:induction false} StreamRoundTrip(calls: seq<Call>)
    requires forall c :: c in calls ==> Int64(c.header) && Sendable(c)
    ensures DecodeAll(Frames(calls)) == calls
  {
    if calls != [] {
      var c := calls[0];
      hide Decode, Frame, Int64;
      FrameDecodes(c.header, c.name, Frames(calls[1..]));
      StreamRoundTrip(calls[1..]);
    }
  }

  // ----- time points -----

  /** Integer division of C++. */
  function Quotient(a: int, b: int): (r: int)
    requires b > 0
  {
    if a >= 0 then a / b else -(-a / b)
  }

  /** `timepoint_to_c_time`: whole seconds, then whole milliseconds of what is left. */
  function ToCTime(ns: int): (t: CTimestamp)
  {
    var secs := Quotient(ns, 1_000_000_000);
    CTimestamp(secs, Quotient(ns - secs * 1_000_000_000, 1_000_000))
  }

  /** `c_time_to_timepoint`. */
  function FromCTime(t: CTimestamp): (ns: int)
  {
    t.secs * 1_000_000_000 + t.msec * 1_000_000
  }

  lemma WholeMilliseconds(n: nat)
    ensures n / 1_000_000 == 1000 * (n / 1_000_000_000) + n % 1_000_000_000 / 1_000_000
  {
    var r := n % 1_000_000_000;
    DivisionIs(n, 1_000_000, 1000 * (n / 1_000_000_000) + r / 1_000_000, r % 1_000_000);
  }

  /** A time point arrives rounded towards the epoch to a whole millisecond. */
  lemma TimeArrives(ns: int)
    ensures FromCTime(ToCTime(ns)) == Quotient(ns, 1_000_000) * 1_000_000
    ensures 0 <= ns ==> FromCTime(ToCTime(ns)) <= ns < FromCTime(ToCTime(ns)) + 1_000_000
    ensures if ns >= 0 then 0 <= ToCTime(ns).msec < 1000 else -1000 < ToCTime(ns).msec <= 0
  {
    WholeMilliseconds(if ns >= 0 then ns else -ns);
  }

  // ----- the calls -----

  /** `new_RPC_header` for `refresh`. */
  function StatusHeader(name: Name): (h: Header)
  {
    Header(GET_STATUS, |name|, 0, 0, CTimestamp(0, 0), CTimestamp(0, 0))
  }

  function ScheduleHeader(name: Name, target: int, greater: bool, when: int, until: int): (h: Header)
  {
    Header(SET_CURRENT, |name|, target, if greater then 1 else 0, ToCTime(when), ToCTime(until))
  }

  datatype Action = GetStatus(name: Name) | Schedule(name: Name, target: int, greater: bool, when: int, until: int)

  datatype Outcome = Error(code: int) | Performed(action: Action)

  /** `connection_handler` of a server whose directory holds `known`. */
  function Handle(known: set<Name>, stream: seq<Byte>): (r: Outcome)
  {
    match Decode(stream)
    case Failed(code) => Error(code)
    case Request(h, name, _) =>
      if name !in known then Error(-1)
      else if h.func == REFRESH || h.func == GET_STATUS then Performed(GetStatus(name))
      else if h.func == SET_CURRENT then
        Performed(Schedule(name, h.currentMA, false, FromCTime(h.whenToSet), FromCTime(h.untilWhen)))
      else Error(-4)
  }

  /** Whatever a client puts into the header, the request is refused for an unknown battery and for an unknown function; codes
      1 and 2 ask for the status, code 3 sets a current. The name's length and the sense in the header do not matter. */
  lemma RequestIsHandled(known: set<Name>, h: Header, name: Name, more: seq<Byte>)
    requires Int64(h) && 65 + |name| < 0x1_0000_0000
    ensures Handle(known, Frame(h, name) + more) ==
              if name !in known then Error(-1)
              else if h.func == 1 || h.func == 2 then Performed(GetStatus(name))
              else if h.func == 3 then
                Performed(Schedule(name, h.currentMA, false,
                                   h.whenToSet.secs * 1_000_000_000 + h.whenToSet.msec * 1_000_000,
                                   h.untilWhen.secs * 1_000_000_000 + h.untilWhen.msec * 1_000_000))
              else Error(-4)
  {
    hide Decode, Frame, Int64;
    FrameDecodes(h, name, more);
  }

  /** What is refused before the battery is looked up: a stream without a length, a length of 0, and a header that is not whole
      or not announced. */
  lemma RefusedFrames(stream: seq<Byte>, code: int)
    ensures Decode(stream) == Failed(code) <==>
            || (code == -5 && |stream| < 4)
            || (code == -2 && |stream| >= 4 && stream[..4] == [0, 0, 0, 0])
            || (code == -3 && |stream| >= 4 && stream[..4] != [0, 0, 0, 0] && (|stream| < 68 || Announced(stream) < 64))
  {
    if |stream| >= 4 {
      NoLength(stream[..4]);
      PatternRange(stream[..4]);
    }
    hide Pattern, WordsIn;
  }

  lemma NoLength(s: seq<Byte>)
    requires |s| == 4
    ensures Pattern(s) == 0 <==> s == [0, 0, 0, 0]
  {
    assert s[1..][1..] == s[2..] && s[2..][1..] == s[3..] && s[3..][1..] == [];
    PatternRange(s[1..]);
    PatternRange(s[2..]);
    PatternRange(s[3..]);
    assert Pattern(s) == s[0] + 256 * Pattern(s[1..]);
    assert Pattern(s[1..]) == s[1] + 256 * Pattern(s[2..]);
    assert Pattern(s[2..]) == s[2] + 256 * Pattern(s[3..]);
    assert Pattern(s[3..]) == s[3] + 256 * Pattern([]);
    assert s == [s[0], s[1], s[2], s[3]];
  }

  lemma SpanOf8()
    ensures Span(8) == 0x1_0000_0000_0000_0000
  {
    SpanOf4();
    SpanGrows(7);
    SpanGrows(6);
    SpanGrows(5);
    SpanGrows(4);
  }

  /** A call on a `NetworkBattery` is performed on the battery of that name with the same target and the interval in
      whole milliseconds; the client's `is_greater_than_target` gets lost. */
  lemma ScheduleArrives(known: set<Name>, name: Name, target: int, greater: bool, when: int, until: int, more: seq<Byte>)
    requires 65 + |name| < 0x1_0000_0000
    requires Fits(true, 8, target) && Fits(true, 8, when) && Fits(true, 8, until)
    ensures Handle(known, Frame(ScheduleHeader(name, target, greater, when, until), name) + more)
         == if name !in known then Error(-1)
            else Performed(Schedule(name, target, false,
                                    Quotient(when, 1_000_000) * 1_000_000, Quotient(until, 1_000_000) * 1_000_000))
  {
    hide Decode, Frame, Span;
    SpanOf8();
    TimeArrives(when);
    TimeArrives(until);
    FrameDecodes(ScheduleHeader(name, target, greater, when, until), name, more);
  }

  lemma StatusArrives(known: set<Name>, name: Name, more: seq<Byte>)
    requires 65 + |name| < 0x1_0000_0000
    ensures Handle(known, Frame(StatusHeader(name), name) + more)
         == if name !in known then Error(-1) else Performed(GetStatus(name))
  {
    hide Decode, Frame;
    SpanOf8();
    FrameDecodes(StatusHeader(name), name, more);
  }

  // ----- the imperative form -----

  /** The request buffer of `NetworkBattery`, filled in place. The header is written before the length, and is told
      of more room than there is behind the length field. */
  method BuildRequest(header: Header, name: Name) returns (frame: array<Byte>)
    ensures frame[..] == Frame(header, name)
  {
    hide Spliced, Bytes, WordBytes;
    frame := new Byte[4 + 64 + |name| + 1](_ => 0);
    var at := 4;
    ghost var blank := frame[..];
    var used := SerializeWords(Words(header), frame, at, frame.Length);
    at := at + used;
    ghost var written := WordBytes(Words(header));
    assert name[..0] == [] && written + [] == written;
    for i := 0 to |name|
      invariant at == 68 + i
      invariant frame[..] == Spliced(blank, 4, written + name[..i])
    {
      SpliceMore(blank, 4, written + name[..i], [name[i]]);
      assert written + name[..i] + [name[i]] == written + name[..i + 1];
      Put(frame, at, name[i]);
      at := at + 1;
    }
    assert name[..|name|] == name;
    SpliceMore(blank, 4, written + name, [0]);
    Put(frame, at, 0);
    ghost var body := written + name + [0];
    BodySpliced(blank, body, Bytes(Length(name), 4));
    used := SerializeInt((64 + |name| + 1) % 0x1_0000_0000, 4, frame, 0, 4);
  }

  lemma BodySpliced(blank: seq<Byte>, body: seq<Byte>, length: seq<Byte>)
    requires |length| == 4 && |blank| == 4 + |body|
    ensures Spliced(Spliced(blank, 4, body), 0, length) == length + body
  {
  }

  /** The decoding half of `connection_handler`. */
  method ReadRequest(stream: seq<Byte>) returns (r: Decoded)
    ensures r == Decode(stream)
  {
    var lenBuf := FirstOf(stream, 4);
    if |lenBuf| != 4 {
      return Failed(-5);
    }
    var dataLen := DeserializeInt(false, 4, lenBuf);
    assert lenBuf[..4] == stream[..4];
    PatternRange(stream[..4]);
    if dataLen == 0 {
      return Failed(-2);
    }
    var data := FirstOf(stream[4..], dataLen);
    var words, headerBytes := DeserializeWords(data, 8);
    if headerBytes != 64 {
      return Failed(-3);
    }
    var name := [];
    var i := headerBytes;
    while i < |data| - 1
      invariant 64 <= i <= |data| && (|data| > 64 ==> i <= |data| - 1)
      invariant name == data[64..i]
    {
      name := name + [data[i]];
      i := i + 1;
    }
    return Request(FromWords(words), name, stream[4 + |data|..]);
  }

  /** The reply to `SET_CURRENT`. Its length is written as a 64-bit number, whose upper half the result then
      overwrites, so that it is a 32-bit length of 4 after all. */
  method ScheduleReply(result: nat) returns (buffer: array<Byte>)
    ensures buffer[..] == Bytes(4, 4) + Bytes(result, 4)
  {
    hide Bytes, Spliced;
    buffer := new Byte[8](_ => 0);
    ghost var blank := buffer[..];
    var used := SerializeInt(4, 8, buffer, 0, 8);
    used := SerializeInt(result, 4, buffer, 4, 8);
    LowHalf(4, 8, 4);
    ReplySpliced(blank, Bytes(4, 8), Bytes(result, 4));
  }

  lemma ReplySpliced(blank: seq<Byte>, length: seq<Byte>, result: seq<Byte>)
    requires |blank| == |length| == 8 && |result| == 4
    ensures Spliced(Spliced(blank, 0, length), 4, result) == length[..4] + result
  {
  }

  lemma {:induction false} LowHalf(n: int, w: nat, v: nat)
    requires v <= w
    ensures Bytes(n, w)[..v] == Bytes(n, v)
    decreases v
  {
    if v > 0 {
      LowHalf(n / 256, w - 1, v - 1);
    }
  }
}
