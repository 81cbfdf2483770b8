/** Message framing on byte streams: syslog over TCP in both forms of RFC 6587,
    and gRPC's length-prefixed messages. */
module Framing {
  import opened Bytes
  import opened Decimals
  import opened Model
  import Seqs

  // ----- syslog (sections 3.4.1 and 3.4.2 of RFC 6587) ------------------------------

  const MAX_LINE_BYTES: nat := 0x10_0000

  datatype Frame = Counted(msg: string) | Line(msg: string)

  function Print(f: Frame): string {
    match f
    case Counted(msg) => Digits(|msg|) + ([' '] + msg)
    case Line(msg) => msg + ['\n']
  }

  function PrintAll(fs: seq<Frame>): string {
    if fs == [] then "" else Print(fs[0]) + PrintAll(fs[1..])
  }

  /** Counted frames hold anything up to the size limit; the line of the other
      kind must not look like a count, nor end in what trimming removes. */
  predicate Sendable(f: Frame) {
    match f
    case Counted(msg) => |msg| <= MAX_LINE_BYTES
    case Line(msg) => msg != "" && !IsDigit(msg[0]) && '\n' !in msg && msg[|msg| - 1] != '\r'
  }

  /** What a read gives: a message, the stream after it, and whether the
      connection goes on. */
  datatype Read = Read(msg: string, rest: string, ok: bool)

  function TrimLineEnd(s: string): string
    decreases |s|
  {
    if s != "" && (s[|s| - 1] == '\r' || s[|s| - 1] == '\n') then TrimLineEnd(s[..|s| - 1]) else s
  }

  /** A line with its newline, or all that is left when there is none. */
  function ReadLine(s: string): (r: Read)
    ensures r.ok ==> |r.rest| < |s|
  {
    if s == "" then Read("", "", false)
    else if s[0] == '\n' then Read(['\n'], s[1..], true)
    else
      var r := ReadLine(s[1..]);
      Read([s[0]] + r.msg, r.rest, r.ok)
  }

  /** The message after its count. */
  function ReadBody(digits: string, s: string): (r: Read)
    ensures r.ok ==> |r.rest| <= |s|
  {
    if digits == "" || exists c :: c in digits && !IsDigit(c) then Read("", s, false)
    else
      var n := DigitsValue(digits);
      if n > MAX_LINE_BYTES || n > |s| then Read("", s, false) else Read(s[..n], s[n..], true)
  }

  /** Up to ten digits and a space; anything else makes it a line after all. */
  function ReadCounted(digits: string, s: string): (r: Read)
    ensures r.ok ==> |r.rest| < |s| || |digits| >= 10
    ensures r.ok && s != "" && |digits| < 10 ==> |r.rest| < |s|
    ensures r.ok ==> |r.rest| <= |s|
    decreases |s|
  {
    if |digits| >= 10 then ReadBody(digits, s)
    else if s == "" then Read("", "", false)
    else if s[0] == ' ' then ReadBody(digits, s[1..])
    else if !IsDigit(s[0]) then
      var line := ReadLine(s);
      Read(digits + TrimLineEnd(line.msg), line.rest, line.ok)
    else ReadCounted(digits + [s[0]], s[1..])
  }

  function ReadFrame(s: string): (r: Read)
    ensures r.ok ==> |r.rest| < |s|
  {
    if s == "" then Read("", "", false)
    else if IsDigit(s[0]) then ReadCounted("", s)
    else
      var line := ReadLine(s);
      Read(TrimLineEnd(line.msg), line.rest, line.ok)
  }

  function Handled(msg: string): seq<string> {
    if msg == "" then [] else [msg]
  }

  /** The messages a connection hands on. */
  function DecodeStream(s: string): seq<string>
    decreases |s|, 1
  {
    Handled(ReadFrame(s).msg) + GoesOn(ReadFrame(s), |s|)
  }

  /** What comes after a read, if the connection goes on. */
  function GoesOn(r: Read, size: nat): seq<string>
    requires r.ok ==> |r.rest| < size
    decreases size, 0
  {
    if r.ok then DecodeStream(r.rest) else []
  }

  function Messages(fs: seq<Frame>): seq<string> {
    if fs == [] then [] else Handled(fs[0].msg) + Messages(fs[1..])
  }

  function Ten(k: nat): nat {
    if k == 0 then 1 else 10 * Ten(k - 1)
  }

  lemma {:induction false} DigitsLength(n: nat, k: nat)
    requires 0 < k && n < Ten(k)
    ensures |Digits(n)| <= k
    decreases n
  {
    if n >= 10 {
      assert k > 1 by {
        assert Ten(1) == 10 * Ten(0);
      }
      DigitsLength(n / 10, k - 1);
    }
  }

  lemma {:induction false} CountReads(digits: string, more: string, rest: string)
    requires (forall c :: c in more ==> IsDigit(c)) && |digits| + |more| < 10
    ensures ReadCounted(digits, more + ([' '] + rest)) == ReadBody(digits + more, rest)
    decreases |more|
  {
    var s := more + ([' '] + rest);
    if more == "" {
      assert s[1..] == rest && digits + more == digits;
    } else {
      assert s[1..] == more[1..] + ([' '] + rest);
      assert more[0] in more && IsDigit(s[0]);
      CountReads(digits + [more[0]], more[1..], rest);
      assert digits + [more[0]] + more[1..] == digits + more;
    }
  }

  lemma {:induction false} LineReads(msg: string, rest: string)
    requires '\n' !in msg
    ensures ReadLine(msg + (['\n'] + rest)) == Read(msg + ['\n'], rest, true)
  {
    var s := msg + (['\n'] + rest);
    if msg == "" {
      assert s[1..] == rest;
    } else {
      assert s[1..] == msg[1..] + (['\n'] + rest);
      LineReads(msg[1..], rest);
      assert [msg[0]] + (msg[1..] + ['\n']) == msg + ['\n'];
    }
  }

  lemma TrimsNewline(msg: string)
    requires msg != "" && '\n' !in msg && msg[|msg| - 1] != '\r'
    ensures TrimLineEnd(msg + ['\n']) == msg
  {
    assert msg[|msg| - 1] in msg;
    assert (msg + ['\n'])[..|msg|] == msg;
  }

  lemma ShortDigits(n: nat)
    requires n <= MAX_LINE_BYTES
    ensures |Digits(n)| < 10
  {
    assert Ten(3) == 1000 && Ten(6) == 1000 * Ten(3) && Ten(9) == 1000 * Ten(6);
    DigitsLength(n, 9);
  }

  lemma BodyReads(msg: string, rest: string)
    requires |msg| <= MAX_LINE_BYTES
    ensures ReadBody(Digits(|msg|), msg + rest) == Read(msg, rest, true)
  {
    DigitsValueOfDigits(|msg|);
    Seqs.Split(msg, rest);
  }

  lemma CountedReads(msg: string, rest: string)
    requires |msg| <= MAX_LINE_BYTES
    ensures ReadFrame(Print(Counted(msg)) + rest) == Read(msg, rest, true)
  {
    var digits, body := Digits(|msg|), msg + rest;
    var s := digits + ([' '] + body);
    assert Print(Counted(msg)) + rest == s by {
      Seqs.Assoc(digits, [' '] + msg, rest);
      Seqs.Assoc([' '], msg, rest);
    }
    assert digits[0] in digits && s[0] == digits[0];
    ShortDigits(|msg|);
    assert "" + digits == digits;
    CountReads("", digits, body);
    BodyReads(msg, rest);
  }

  /** A frame is read back whatever follows it. */
  lemma FrameReads(f: Frame, rest: string)
    requires Sendable(f)
    ensures ReadFrame(Print(f) + rest) == Read(f.msg, rest, true)
  {
    match f {
      case Counted(msg) => CountedReads(msg, rest);
      case Line(msg) =>
        assert Print(f) + rest == msg + (['\n'] + rest);
        LineReads(msg, rest);
        TrimsNewline(msg);
    }
  }

  /** Any mix of both kinds of frames decodes to the messages sent. */
  lemma {:induction false} FramesInvert(fs: seq<Frame>)
    requires forall f :: f in fs ==> Sendable(f)
    ensures DecodeStream(PrintAll(fs)) == Messages(fs)
    decreases |fs|
  {
    if fs != [] {
      FrameReads(fs[0], PrintAll(fs[1..]));
      FramesInvert(fs[1..]);
    }
  }

  method ReadOctetCounted(s: string) returns (r: Read)
    ensures r == ReadCounted("", s)
  {
    var digits, rest := "", s;
    while |digits| < 10
      invariant ReadCounted("", s) == ReadCounted(digits, rest)
      decreases |rest|
    {
      if rest == "" {
        return Read("", "", false);
      }
      var b := rest[0];
      if b == ' ' {
        return ReadBody(digits, rest[1..]);
      }
      if !IsDigit(b) {
        var line := ReadLine(rest);
        return Read(digits + TrimLineEnd(line.msg), line.rest, line.ok);
      }
      digits, rest := digits + [b], rest[1..];
    }
    r := ReadBody(digits, rest);
  }

  method ServeConnection(s: string) returns (handled: seq<string>)
    ensures handled == DecodeStream(s)
  {
    handled := [];
    var r := Read("", s, true);
    while r.ok
      invariant DecodeStream(s) == handled + GoesOn(r, |r.rest| + 1)
      decreases r.ok, |r.rest|
    {
      var next: Read;
      if r.rest != "" && IsDigit(r.rest[0]) {
        next := ReadOctetCounted(r.rest);
      } else {
        next := ReadFrame(r.rest);
      }
      Seqs.Assoc(handled, Handled(next.msg), GoesOn(next, |r.rest|));
      handled, r := handled + Handled(next.msg), next;
    }
  }

  // ----- gRPC ------------------------------------------------------------------------

  const HEADER: nat := 5
  const MAX_RECV: nat := 0x200_0000
  const MAX_STREAM: nat := MAX_RECV + HEADER

  /** Expanding a compressed message. */
  type Gunzip = seq<byte> -> Option<seq<byte>>

  function Frames(gunzip: Gunzip, b: seq<byte>): Option<seq<seq<byte>>>
    decreases |b|
  {
    if b == [] then Some([])
    else if |b| < HEADER then None
    else
      var n := FromBigEndian(b[1..HEADER]);
      if n > MAX_RECV || |b| < HEADER + n then None
      else
        var msg := b[HEADER..HEADER + n];
        match (if b[0] == 0 then Some(msg) else if b[0] == 1 then gunzip(msg) else None)
        case None => None
        case Some(m) =>
          match Frames(gunzip, b[HEADER + n..])
          case None => None
          case Some(ms) => Some([m] + ms)
  }

  /** readFrames looks no further than one largest message. */
  function ReadFrames(gunzip: Gunzip, b: seq<byte>): Option<seq<seq<byte>>> {
    Frames(gunzip, if |b| <= MAX_STREAM then b else b[..MAX_STREAM])
  }

  function WriteFrame(m: seq<byte>): seq<byte> {
    [0] + (BigEndian(|m|, 4) + m)
  }

  function WriteFrames(ms: seq<seq<byte>>): seq<byte> {
    if ms == [] then [] else WriteFrame(ms[0]) + WriteFrames(ms[1..])
  }

  lemma FrameHeader(m: seq<byte>, rest: seq<byte>)
    requires |m| < 0x1_0000_0000
    ensures var b := WriteFrame(m) + rest;
            && |b| == HEADER + |m| + |rest| && b[0] == 0
            && FromBigEndian(b[1..HEADER]) == |m|
            && b[HEADER..HEADER + |m|] == m && b[HEADER + |m|..] == rest
  {
    Ranges();
    BigEndianRoundTrip(|m|, 4);
    assert (WriteFrame(m) + rest)[1..HEADER] == BigEndian(|m|, 4);
  }

  /** A cut of the stream falls right after n messages. */
  ghost predicate Between(ms: seq<seq<byte>>, n: nat, cut: nat) {
    n <= |ms| && |WriteFrames(ms[..n])| == cut
  }

  lemma BetweenLater(ms: seq<seq<byte>>, n: nat, cut: nat)
    requires 0 < n <= |ms|
    ensures Between(ms, n, cut) <==> cut >= HEADER + |ms[0]| && Between(ms[1..], n - 1, cut - HEADER - |ms[0]|)
  {
    assert ms[..n][0] == ms[0] && ms[..n][1..] == ms[1..][..n - 1];
    assert |WriteFrame(ms[0])| == HEADER + |ms[0]|;
  }

  /** The result is that of a stream cut there: the messages before the cut if it
      falls between messages, and an error if not. */
  ghost predicate ReadsTo(ms: seq<seq<byte>>, cut: nat, r: Option<seq<seq<byte>>>) {
    && (r.Some? <==> exists n: nat :: Between(ms, n, cut))
    && (forall n: nat :: Between(ms, n, cut) ==> r == Some(ms[..n]))
  }

  lemma ReadsToMore(ms: seq<seq<byte>>, cut: nat, r: Option<seq<seq<byte>>>)
    requires ms != [] && 0 < cut
    requires cut >= HEADER + |ms[0]| ==> ReadsTo(ms[1..], cut - HEADER - |ms[0]|, r)
    ensures ReadsTo(ms, cut, if cut < HEADER + |ms[0]| then None else Joined([ms[0]], r))
  {
    forall n: nat | Between(ms, n, cut)
      ensures cut >= HEADER + |ms[0]| && r.Some? && Joined([ms[0]], r) == Some(ms[..n])
    {
      BetweenLater(ms, n, cut);
      assert ms[..n] == [ms[0]] + ms[1..][..n - 1];
    }
    if cut >= HEADER + |ms[0]| && r.Some? {
      var n: nat :| Between(ms[1..], n, cut - HEADER - |ms[0]|);
      BetweenLater(ms, n + 1, cut);
    }
  }

  /** The front of a stream of messages reads if and only if the cut falls
      between messages, and then as the messages before it. */
  lemma {:induction false} CutReads(gunzip: Gunzip, ms: seq<seq<byte>>, cut: nat)
    requires (forall m :: m in ms ==> |m| <= MAX_RECV) && cut <= |WriteFrames(ms)|
    ensures ReadsTo(ms, cut, Frames(gunzip, WriteFrames(ms)[..cut]))
    decreases |ms|
  {
    if cut == 0 {
      assert Between(ms, 0, 0);
      forall n: nat | Between(ms, n, 0) ensures n == 0 {
        if n > 0 {
          BetweenLater(ms, n, 0);
        }
      }
    } else {
      assert ms[0] in ms;
      CutOnce(gunzip, ms, cut);
      var n := HEADER + |ms[0]|;
      if cut >= n {
        assert |WriteFrames(ms)| == n + |WriteFrames(ms[1..])|;
        CutReads(gunzip, ms[1..], cut - n);
        ReadsToMore(ms, cut, Frames(gunzip, WriteFrames(ms[1..])[..cut - n]));
      } else {
        ReadsToMore(ms, cut, None);
      }
    }
  }

  /** Reading what is before the cut takes one message, or finds it truncated. */
  lemma CutOnce(gunzip: Gunzip, ms: seq<seq<byte>>, cut: nat)
    requires ms != [] && |ms[0]| <= MAX_RECV && 0 < cut <= |WriteFrames(ms)|
    ensures var m, n := ms[0], HEADER + |ms[0]|;
            Frames(gunzip, WriteFrames(ms)[..cut])
            == if cut < n then None else Joined([m], Frames(gunzip, WriteFrames(ms[1..])[..cut - n]))
  {
    var m, rest := ms[0], WriteFrames(ms[1..]);
    var b := WriteFrames(ms)[..cut];
    FrameHeader(m, rest);
    if cut >= HEADER + |m| {
      assert b == WriteFrame(m) + rest[..cut - HEADER - |m|];
      FrameHeader(m, rest[..cut - HEADER - |m|]);
    } else if cut >= HEADER {
      assert b[1..HEADER] == WriteFrames(ms)[1..HEADER];
    }
  }

  lemma {:induction false} FramesRead(gunzip: Gunzip, ms: seq<seq<byte>>)
    requires forall m :: m in ms ==> |m| <= MAX_RECV
    ensures Frames(gunzip, WriteFrames(ms)) == Some(ms)
    decreases |ms|
  {
    if ms != [] {
      assert ms[0] in ms;
      FrameHeader(ms[0], WriteFrames(ms[1..]));
      FramesRead(gunzip, ms[1..]);
      assert ms == [ms[0]] + ms[1..];
    }
  }

  /** A stream of uncompressed messages, each within the size limit, is read back
      exactly when all of it fits the limit of the stream. */
  lemma FramesReadExactlyWhenShort(gunzip: Gunzip, ms: seq<seq<byte>>)
    requires forall m :: m in ms ==> |m| <= MAX_RECV
    ensures ReadFrames(gunzip, WriteFrames(ms)) == Some(ms) <==> |WriteFrames(ms)| <= MAX_STREAM
  {
    if |WriteFrames(ms)| <= MAX_STREAM {
      FramesRead(gunzip, ms);
    } else {
      CutReads(gunzip, ms, MAX_STREAM);
      assert ms[..|ms|] == ms;
    }
  }

  /** A stream past its limit, of messages each within theirs, is read without
      an error if and only if the limit falls right after some message; every
      later message is then lost. */
  lemma LosesSilentlyExactlyWhen(gunzip: Gunzip, ms: seq<seq<byte>>)
    requires forall m :: m in ms ==> |m| <= MAX_RECV
    requires |WriteFrames(ms)| > MAX_STREAM
    ensures var r := ReadFrames(gunzip, WriteFrames(ms));
            && (r.Some? <==> exists n: nat :: Between(ms, n, MAX_STREAM))
            && (forall n: nat :: Between(ms, n, MAX_STREAM) ==> n < |ms| && r == Some(ms[..n]))
  {
    CutReads(gunzip, ms, MAX_STREAM);
    assert ms[..|ms|] == ms;
  }

  /** One message of the largest size hides whatever follows it. */
  lemma LargestHidesTheNext(gunzip: Gunzip, m: seq<byte>, next: seq<byte>)
    requires |m| == MAX_RECV && |next| <= MAX_RECV
    ensures ReadFrames(gunzip, WriteFrames([m, next])) == Some([m])
  {
    var ms := [m, next];
    assert ms[..1] == [m] && ms[1..] == [next] && [next][1..] == [] && [m][1..] == [];
    assert Between(ms, 1, MAX_STREAM);
    LosesSilentlyExactlyWhen(gunzip, ms);
  }

  method ReadAllFrames(gunzip: Gunzip, body: seq<byte>) returns (out: Option<seq<seq<byte>>>)
    ensures out == ReadFrames(gunzip, body)
  {
    var left := if |body| <= MAX_STREAM then body else body[..MAX_STREAM];
    var msgs := [];
    JoinedNone(Frames(gunzip, left));
    while left != []
      invariant ReadFrames(gunzip, body) == Joined(msgs, Frames(gunzip, left))
      decreases |left|
    {
      if |left| < HEADER {
        return None;
      }
      var length := FromBigEndian(left[1..HEADER]);
      if length > MAX_RECV || |left| < HEADER + length {
        return None;
      }
      var msg := left[HEADER..HEADER + length];
      var m := if left[0] == 0 then Some(msg) else if left[0] == 1 then gunzip(msg) else None;
      if m.None? {
        return None;
      }
      TakesMessage(gunzip, left, length, m.value, msgs);
      msgs, left := msgs + [m.value], left[HEADER + length..];
    }
    assert msgs + [] == msgs;
    return Some(msgs);
  }

  function Joined(msgs: seq<seq<byte>>, more: Option<seq<seq<byte>>>): Option<seq<seq<byte>>> {
    match more case None => None case Some(ms) => Some(msgs + ms)
  }

  lemma JoinedNone(more: Option<seq<seq<byte>>>)
    ensures Joined([], more) == more
  {
    assert more.Some? ==> [] + more.value == more.value;
  }

  /** One pass of the loop: a whole message at the front joins those before it. */
  lemma TakesMessage(gunzip: Gunzip, left: seq<byte>, n: nat, m: seq<byte>, msgs: seq<seq<byte>>)
    requires |left| >= HEADER + n && n == FromBigEndian(left[1..HEADER]) <= MAX_RECV
    requires (left[0] == 0 && m == left[HEADER..HEADER + n])
             || (left[0] == 1 && gunzip(left[HEADER..HEADER + n]) == Some(m))
    ensures Joined(msgs, Frames(gunzip, left)) == Joined(msgs + [m], Frames(gunzip, left[HEADER + n..]))
  {
    JoinedMore(msgs, m, Frames(gunzip, left[HEADER + n..]));
  }

  lemma JoinedMore(msgs: seq<seq<byte>>, m: seq<byte>, more: Option<seq<seq<byte>>>)
    ensures Joined(msgs, Joined([m], more)) == Joined(msgs + [m], more)
  {
    if more.Some? {
      Seqs.Assoc(msgs, [m], more.value);
    }
  }
}
