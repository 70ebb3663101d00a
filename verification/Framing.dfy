/** Length-prefixed frames on a byte stream. */
module Framing {
  import opened Base
  import Wire

  const MAX_FRAME: nat := 1024 * 1024

  datatype FrameError = TooLarge | UnexpectedEof

  /** Four bytes, most significant first. */
  function BigEndian(n: U32): (r: Bytes)
    ensures |r| == 4
  {
    var q1 := n / 0x100;
    var q2 := q1 / 0x100;
    [q2 / 0x100, q2 % 0x100, q1 % 0x100, n % 0x100]
  }

  function FromBigEndian(b: Bytes): (n: U32)
    requires |b| == 4
  {
    var b0: int, b1: int, b2: int, b3: int := b[0], b[1], b[2], b[3];
    ((b0 * 0x100 + b1) * 0x100 + b2) * 0x100 + b3
  }

  lemma {:induction false} BigEndianReads(n: U32)
    ensures FromBigEndian(BigEndian(n)) == n
  {
    var q1 := n / 0x100;
    var q2 := q1 / 0x100;
    assert (q2 / 0x100) * 0x100 + q2 % 0x100 == q2;
    assert q2 * 0x100 + q1 % 0x100 == q1;
  }

  lemma {:induction false} BigEndianWrites(b: Bytes)
    requires |b| == 4
    ensures BigEndian(FromBigEndian(b)) == b
  {
    var b0: int, b1: int, b2: int, b3: int := b[0], b[1], b[2], b[3];
    var m: int := FromBigEndian(b);
    var q1 := (b0 * 0x100 + b1) * 0x100 + b2;
    var q2 := b0 * 0x100 + b1;
    assert m / 0x100 == q1 && m % 0x100 == b3;
    assert q1 / 0x100 == q2 && q1 % 0x100 == b2;
    assert q2 / 0x100 == b0 && q2 % 0x100 == b1;
  }

  /** The most significant byte comes first: one more byte of the number is appended at the end. */
  lemma {:induction false} BigEndianAppends(n: nat, b: Byte)
    requires n < 0x100_0000
    ensures BigEndian(0) == [0, 0, 0, 0]
    ensures BigEndian(0x100 * n + b) == BigEndian(n)[1..] + [b]
  {
  }

  function Frame(payload: Bytes): Bytes
    requires |payload| <= MAX_FRAME
  {
    BigEndian(|payload|) + payload
  }

  predicate Sendable(payloads: seq<Bytes>) {
    forall i :: 0 <= i < |payloads| ==> |payloads[i]| <= MAX_FRAME
  }

  /** Everything written for a sequence of payloads. */
  function Written(payloads: seq<Bytes>): Bytes
    requires Sendable(payloads)
  {
    if payloads == [] then [] else Frame(payloads[0]) + Written(payloads[1..])
  }

  /** The outcome of one `read_frame` and what it leaves unread: a failed read has consumed what it read. */
  function Parse(s: Bytes): (r: (Result<Bytes, FrameError>, Bytes))
    ensures r.0.Ok? ==> |r.1| < |s|
  {
    if |s| < 4 then (Err(UnexpectedEof), [])
    else
      var n := FromBigEndian(s[..4]);
      if n > MAX_FRAME then (Err(TooLarge), s[4..])
      else if |s| < 4 + n then (Err(UnexpectedEof), [])
      else (Ok(s[4..4 + n]), s[4 + n..])
  }

  /** Repeated reads until the stream is used up. */
  function ParseAll(s: Bytes): Result<seq<Bytes>, FrameError>
    decreases |s|
  {
    if s == [] then Ok([])
    else
      var (r, rest) := Parse(s);
      if r.Err? then Err(r.error)
      else
        var tail := ParseAll(rest);
        if tail.Err? then tail else Ok([r.value] + tail.value)
  }

  /** `r`, with `got` in front of what it read. */
  function After(got: seq<Bytes>, r: Result<seq<Bytes>, FrameError>): Result<seq<Bytes>, FrameError> {
    if r.Err? then r else Ok(got + r.value)
  }

  lemma {:induction false} AfterNext(got: seq<Bytes>, s: Bytes)
    ensures After([], ParseAll(s)) == ParseAll(s)
    ensures s == [] ==> After(got, ParseAll(s)) == Ok(got)
    ensures s != [] && Parse(s).0.Ok? ==>
      After(got, ParseAll(s)) == After(got + [Parse(s).0.value], ParseAll(Parse(s).1))
    ensures s != [] && Parse(s).0.Err? ==> After(got, ParseAll(s)) == Err(Parse(s).0.error)
  {
    var r := ParseAll(s);
    assert r.Ok? ==> [] + r.value == r.value;
    assert got + [] == got;
    if s != [] && Parse(s).0.Ok? && r.Ok? {
      var v, tail := Parse(s).0.value, ParseAll(Parse(s).1).value;
      assert got + ([v] + tail) == (got + [v]) + tail;
    }
  }

  /** A frame in front of anything reads back as itself and leaves the rest untouched. */
  lemma {:induction false} FrameReadsBack(payload: Bytes, rest: Bytes)
    requires |payload| <= MAX_FRAME
    ensures Parse(Frame(payload) + rest) == (Ok(payload), rest)
  {
    var s := Frame(payload) + rest;
    BigEndianReads(|payload|);
    assert s[..4] == BigEndian(|payload|);
    assert s[4..4 + |payload|] == payload;
    assert s[4 + |payload|..] == rest;
  }

  /** The two size limits agree: every frame a link's writer lets through can be written, and reads back. */
  lemma {:induction false} LinkFrameReadsBack(payload: nat, frame: Bytes, rest: Bytes)
    requires |frame| == Wire.FrameSize(payload) && Wire.SendOver(payload) == Wire.Arrives
    ensures |frame| <= MAX_FRAME && Parse(Frame(frame) + rest) == (Ok(frame), rest)
  {
    FrameReadsBack(frame, rest);
  }

  /** How a read fails, and what it has then used up: fewer bytes than a prefix, a length over 1 MiB, or fewer bytes
      than the prefix promises. */
  lemma {:induction false} ReadFails(n: U32, rest: Bytes)
    ensures |rest| < 4 ==> Parse(rest) == (Err(UnexpectedEof), [])
    ensures n > 1024 * 1024 ==> Parse(BigEndian(n) + rest) == (Err(TooLarge), rest)
    ensures n <= 1024 * 1024 && |rest| < n ==> Parse(BigEndian(n) + rest) == (Err(UnexpectedEof), [])
  {
    BigEndianReads(n);
    assert (BigEndian(n) + rest)[..4] == BigEndian(n) && (BigEndian(n) + rest)[4..] == rest;
  }

  /** Whatever reads as a frame was written as that frame. */
  lemma {:induction false} ReadWasWritten(s: Bytes)
    requires Parse(s).0.Ok?
    ensures |Parse(s).0.value| <= MAX_FRAME
    ensures s == Frame(Parse(s).0.value) + Parse(s).1
  {
    BigEndianWrites(s[..4]);
    var n := FromBigEndian(s[..4]);
    assert s == s[..4] + s[4..4 + n] + s[4 + n..];
  }

  /** Stream round trip, in both directions: the frames read from a stream are `payloads` exactly when the stream
      is what writing `payloads` produced. */
  lemma {:induction false} StreamRoundTrip(s: Bytes, payloads: seq<Bytes>)
    ensures ParseAll(s) == Ok(payloads) <==> Sendable(payloads) && s == Written(payloads)
    decreases |payloads|
  {
    if payloads == [] {
      if s != [] && Parse(s).0.Ok? && ParseAll(Parse(s).1).Ok? {
        assert ParseAll(s).value != [];
      }
    } else {
      var head, tail := payloads[0], payloads[1..];
      if Sendable(payloads) && s == Written(payloads) {
        FrameReadsBack(head, Written(tail));
        StreamRoundTrip(Written(tail), tail);
        assert payloads == [head] + tail;
      }
      if ParseAll(s) == Ok(payloads) {
        ReadWasWritten(s);
        StreamRoundTrip(Parse(s).1, tail);
        assert forall i :: 1 <= i < |payloads| ==> payloads[i] == tail[i - 1];
      }
    }
  }

  /** Different frame sequences never share a stream. */
  lemma {:induction false} UniquelyDecodable(a: seq<Bytes>, b: seq<Bytes>)
    requires Sendable(a) && Sendable(b) && Written(a) == Written(b)
    ensures a == b
  {
    StreamRoundTrip(Written(a), a);
    StreamRoundTrip(Written(b), b);
  }

  /** What the first k payloads put on the stream. */
  function WrittenUpto(payloads: seq<Bytes>, k: nat): Bytes
    requires Sendable(payloads) && k <= |payloads|
  {
    if k == 0 then [] else WrittenUpto(payloads, k - 1) + Frame(payloads[k - 1])
  }

  lemma {:induction false} WrittenFrom(payloads: seq<Bytes>, k: nat)
    requires Sendable(payloads) && k <= |payloads|
    ensures Sendable(payloads[k..]) && WrittenUpto(payloads, k) + Written(payloads[k..]) == Written(payloads)
  {
    hide Frame, BigEndian;
    if k == 0 {
      SuffixEnds(payloads);
    } else {
      WrittenFrom(payloads, k - 1);
      SuffixStep(payloads, k - 1);
      var rest := payloads[k - 1..];
      assert Written(rest) == Frame(payloads[k - 1]) + Written(payloads[k..]);
    }
  }

  lemma {:induction false} WrittenUptoAll(payloads: seq<Bytes>)
    requires Sendable(payloads)
    ensures WrittenUpto(payloads, |payloads|) == Written(payloads)
  {
    WrittenFrom(payloads, |payloads|);
    SuffixEnds(payloads);
  }

  /** One direction of a connection: bytes written and not yet read. */
  class Pipe {
    var unread: Bytes

    constructor ()
      ensures unread == []
    {
      unread := [];
    }

    method WriteFrame(payload: Bytes) returns (r: Result<(), FrameError>)
      modifies this
      ensures r == if |payload| > MAX_FRAME then Err(TooLarge) else Ok(())
      ensures unread == if r.Err? then old(unread) else old(unread) + Frame(payload)
    {
      if |payload| > MAX_FRAME {
        return Err(TooLarge);
      }
      unread := unread + BigEndian(|payload|);
      unread := unread + payload;
      return Ok(());
    }

    /** `read_exact`: fills the buffer in place, or fails having consumed what there was. */
    method ReadExact(buf: array<Byte>) returns (ok: bool)
      modifies this, buf
      ensures ok <==> |old(unread)| >= buf.Length
      ensures ok ==> buf[..] == old(unread)[..buf.Length] && unread == old(unread)[buf.Length..]
      ensures !ok ==> unread == []
    {
      var filled := 0;
      while filled < buf.Length
        invariant 0 <= filled <= buf.Length && filled <= |old(unread)|
        invariant unread == old(unread)[filled..]
        invariant buf[..filled] == old(unread)[..filled]
      {
        if unread == [] {
          return false;
        }
        buf[filled] := unread[0];
        unread := unread[1..];
        filled := filled + 1;
      }
      return true;
    }

    method ReadFrame() returns (r: Result<Bytes, FrameError>)
      modifies this
      ensures (r, unread) == Parse(old(unread))
    {
      var prefix := new Byte[4];
      var ok := ReadExact(prefix);
      if !ok {
        return Err(UnexpectedEof);
      }
      var n := FromBigEndian(prefix[..]);
      if n > MAX_FRAME {
        return Err(TooLarge);
      }
      var buf := new Byte[n];
      ok := ReadExact(buf);
      if !ok {
        return Err(UnexpectedEof);
      }
      assert old(unread)[4..][n..] == old(unread)[4 + n..];
      assert old(unread)[4..][..n] == old(unread)[4..4 + n];
      return Ok(buf[..]);
    }

    method WriteAll(payloads: seq<Bytes>)
      requires Sendable(payloads)
      modifies this
      ensures unread == old(unread) + Written(payloads)
    {
      hide Frame, Written, BigEndian;
      for i := 0 to |payloads|
        invariant unread == old(unread) + WrittenUpto(payloads, i)
      {
        var r := WriteFrame(payloads[i]);
      }
      WrittenUptoAll(payloads);
    }

    /** Reads frames until nothing is left; reading back what was written yields the payloads and every byte. */
    method ReadAll() returns (r: Result<seq<Bytes>, FrameError>)
      modifies this
      ensures r == ParseAll(old(unread))
      ensures r.Ok? ==> unread == []
      ensures forall payloads :: Sendable(payloads) && old(unread) == Written(payloads) ==> r == Ok(payloads)
    {
      var got: seq<Bytes> := [];
      ghost var start := unread;
      AfterNext([], start);
      forall payloads | Sendable(payloads) && start == Written(payloads) ensures ParseAll(start) == Ok(payloads) {
        StreamRoundTrip(start, payloads);
      }
      while unread != []
        invariant ParseAll(start) == After(got, ParseAll(unread))
        decreases |unread|
      {
        AfterNext(got, unread);
        var f := ReadFrame();
        if f.Err? {
          return Err(f.error);
        }
        got := got + [f.value];
      }
      AfterNext(got, unread);
      return Ok(got);
    }
  }
}
