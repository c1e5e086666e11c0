// The host side of the fastboot command protocol (fastboot/protocol.c).
//
// A command is one write of at most 64 bytes; the device answers with
// status frames of at most 64 bytes read one at a time: "INFO" frames are
// shown and skipped, "OKAY" ends the command with its text as the
// response, "FAIL" ends it with the device's message, and "DATA" with a
// hexadecimal size opens a data phase of at most the size the host
// announced. Large sparse images are streamed through a 512-byte staging
// buffer so that every transfer but the last is a whole number of
// 512-byte blocks.
//
// The transport is a script: the frames its reads return and the counts
// its writes return, with a log of every write the host makes. Once
// closed, a transport fails every read and write. The module's static
// state (the ERROR buffer, trans_buf, trans_buf_len) and the lines
// printed to stderr complete the state.

module Protocol {
  import opened CStrings

  const STATUS_MAX: nat := 64
  const COMMAND_MAX: nat := 64
  const TRANS_BUF_SIZE: nat := 512
  const ULONG_MAX: nat := 0xffff_ffff_ffff_ffff
  const UINT_RANGE: nat := 0x1_0000_0000
  const INT_MAX: nat := 0x7fff_ffff

  /** What one status read can return: at most 64 bytes. */
  type StatusText = s: string | |s| <= STATUS_MAX

  /** One read from the transport: a failure, or a status frame. */
  datatype Frame = ReadFailed | Status(text: StatusText)

  /** What the host hands to one transport write. */
  datatype Packet = Command(cmd: string) | Data(bytes: seq<Byte>)

  /** The messages the ERROR buffer can hold. */
  datatype FbError =
    | StatusReadFailed
    | StatusMalformed(len: nat)
    | Remote(msg: string)
    | RemoteFailure
    | DataSizeTooLarge
    | UnknownStatusCode
    | CommandTooLarge
    | CommandWriteFailed
    | DataTransferFailure
    | ShortTransfer
    | TransBufNotEmpty
    | TooMuchLeft

  /**
   * The transport (frames still to be read, replies still to be given to
   * writes, the writes made, whether it is closed), the "(bootloader)"
   * lines printed so far and the ERROR buffer.
   */
  datatype Link = Link(frames: seq<Frame>, replies: seq<int>, written: seq<Packet>,
                       closed: bool, infos: seq<string>, error: Option<FbError>)

  /** The state after an operation, its return value and the response text. */
  datatype Step = Step(link: Link, ret: int, response: string)

  /** The state after a sparse-download operation, with the staging buffer's contents. */
  datatype SparseStep = SparseStep(link: Link, buffered: seq<Byte>, ret: int)

  datatype Tag = Info | Okay | Fail | DataTag | Other

  function Min(a: int, b: int): int { if a <= b then a else b }

  // ---------------------------------------------------------------------
  // The transport

  /** trans->read: the next scripted frame, a failure once closed or out of frames. */
  function ReadFrame(l: Link): (f: Frame)
    ensures l.closed ==> f == ReadFailed
  {
    if l.closed || l.frames == [] then ReadFailed else l.frames[0]
  }

  function AfterRead(l: Link): Link
  {
    if l.closed || l.frames == [] then l else l.(frames := l.frames[1..])
  }

  /** trans->write: the next scripted count, -1 once closed or out of replies. */
  function WriteReply(l: Link): int
  {
    if l.closed || l.replies == [] then -1 else l.replies[0]
  }

  function AfterWrite(l: Link, p: Packet): Link
  {
    l.(written := l.written + [p],
       replies := if l.closed || l.replies == [] then l.replies else l.replies[1..])
  }

  /** ERROR is set and the transport closed. */
  function Closing(l: Link, e: FbError): Link { l.(closed := true, error := Some(e)) }

  /** ERROR is set; the transport stays open. */
  function Failing(l: Link, e: FbError): Link { l.(error := Some(e)) }

  // ---------------------------------------------------------------------
  // Status frames

  /** The tag the memcmp chain of check_response finds in the first four bytes. */
  function TagOf(t: string): (g: Tag)
    requires |t| >= 4
    ensures g == Info <==> StartsWith(t, "INFO")
    ensures g == Okay <==> StartsWith(t, "OKAY")
    ensures g == Fail <==> StartsWith(t, "FAIL")
    ensures g == DataTag <==> StartsWith(t, "DATA")
  {
    var h := t[..4];
    if h == "INFO" then Info
    else if h == "OKAY" then Okay
    else if h == "FAIL" then Fail
    else if h == "DATA" then DataTag
    else Other
  }

  /** The text after the four-byte tag, as the C string the NUL-terminated buffer holds. */
  function Body(t: string): string
    requires |t| >= 4
  {
    UpToNul(t[4..])
  }

  /**
   * strtoul(body, 0, 16) on a host whose unsigned long has 64 bits: a
   * magnitude past ULONG_MAX saturates, a minus sign negates a non-zero
   * magnitude modulo 2^64; the result is stored into a 32-bit unsigned.
   */
  function DataSize(body: string): (d: nat)
    ensures d < UINT_RANGE
  {
    var v := HexToNat(body);
    var l := if v > ULONG_MAX then ULONG_MAX else if MinusSign(body) && v > 0 then ULONG_MAX + 1 - v else v;
    l % UINT_RANGE
  }

  /** A plus sign before the hex digits reads the same size as none, as strtoul does. */
  lemma DataSizePlus(s: string)
    requires s == [] || (!IsSpace(s[0]) && s[0] != '+' && s[0] != '-')
    ensures DataSize("+" + s) == DataSize(s)
  {
    HexToNatPlus(s);
  }

  /** A minus sign before a magnitude of 1 to 2^32 gives its 32-bit negation, 2^32 less the magnitude. */
  lemma DataSizeMinus(s: string)
    requires s == [] || (!IsSpace(s[0]) && s[0] != '+' && s[0] != '-')
    requires 0 < HexToNat(s) <= UINT_RANGE
    ensures DataSize("-" + s) == UINT_RANGE - HexToNat(s)
  {
    HexToNatPlus(s);
    var v := HexToNat(s);
    assert HexToNat("-" + s) == v <= ULONG_MAX && MinusSign("-" + s);
    DivModUnique(ULONG_MAX + 1 - v, UINT_RANGE, UINT_RANGE - 1, UINT_RANGE - v);
  }

  /** For instance "+1f" is a size of 0x1f, and "-1" a size of 0xffffffff. */
  lemma DataSizeSigned()
    ensures DataSize("+1f") == 0x1f
    ensures DataSize("-1") == 0xffff_ffff
  {
    var h, one := "1f", "1";
    assert h[0] == '1' && h[1] == 'f' && one[0] == '1';
    NoLeadingSpace(h);
    NoLeadingSpace(one);
    assert Unsigned(h) == h && Unsigned(one) == one;
    assert !StartsWith(h, "0x") && !StartsWith(h, "0X") && !StartsWith(one, "0x") && !StartsWith(one, "0X");
    assert LeadingHex(h) == h && LeadingHex(one) == one;
    assert HexValue(h) == 16 * HexValue(one) + 15;
    assert HexToNat(h) == 0x1f && HexToNat(one) == 1;
    assert "+1f" == "+" + h && "-1" == "-" + one;
    HexToNatPlus(h);
    DivModUnique(0x1f, UINT_RANGE, 0, 0x1f);
    DataSizePlus(h);
    DataSizeMinus(one);
  }

  /** A 32-bit unsigned returned as int. */
  function AsInt(d: nat): (r: int)
    requires d < UINT_RANGE
    ensures r <= d && (r >= 0 <==> d <= INT_MAX) && (r >= 0 ==> r == d)
  {
    if d <= INT_MAX then d else d - UINT_RANGE
  }

  predicate IsInfo(f: Frame)
  {
    f.Status? && |f.text| >= 4 && TagOf(f.text) == Info
  }

  function InfoBody(f: Frame): string
  {
    if f.Status? && |f.text| >= 4 then Body(f.text) else ""
  }

  function InfoBodies(p: seq<Frame>): (r: seq<string>)
    ensures |r| == |p|
  {
    if p == [] then [] else [InfoBody(p[0])] + InfoBodies(p[1..])
  }

  /**
   * check_response: frames are read until one decides. A read failure, a
   * frame shorter than four bytes, a too large data size and an unknown
   * tag close the transport; "FAIL" leaves it open. "DATA" is only
   * accepted when a data size was announced (size > 0), and then only up
   * to that size. The response text is only given on "OKAY".
   */
  function Respond(l: Link, size: nat, want: bool): (s: Step)
    ensures s.ret <= size && (size == 0 ==> s.ret <= 0)
    ensures s.response != "" ==> s.ret == 0 && want
    ensures l.closed ==> s.ret == -1 && s.link.closed
    ensures s.link.written == l.written && s.link.replies == l.replies
    decreases |l.frames|
  {
    var f := ReadFrame(l);
    var l1 := AfterRead(l);
    if f.ReadFailed? then Step(Closing(l1, StatusReadFailed), -1, "")
    else if |f.text| < 4 then Step(Closing(l1, StatusMalformed(|f.text|)), -1, "")
    else
      var body := Body(f.text);
      match TagOf(f.text)
      case Info => Respond(l1.(infos := l1.infos + [body]), size, want)
      case Okay => Step(l1, 0, if want then body else "")
      case Fail => Step(Failing(l1, if |f.text| > 4 then Remote(body) else RemoteFailure), -1, "")
      case DataTag =>
        if size > 0 then
          var d := DataSize(body);
          if d > size then Step(Closing(l1, DataSizeTooLarge), -1, "") else Step(l1, AsInt(d), "")
        else Step(Closing(l1, UnknownStatusCode), -1, "")
      case Other => Step(Closing(l1, UnknownStatusCode), -1, "")
  }

  /**
   * What every answer keeps: a command that succeeds leaves the transport
   * and ERROR as they were, one that fails (with an announced size that
   * fits an int) leaves a message in ERROR, frames are only consumed and
   * lines only added.
   */
  lemma {:induction false} RespondKeeps(l: Link, size: nat, want: bool)
    ensures var s := Respond(l, size, want);
      (s.ret >= 0 ==> s.link.closed == l.closed && s.link.error == l.error) &&
      (s.ret < 0 && size <= INT_MAX ==> s.link.error.Some?) &&
      l.infos <= s.link.infos && |s.link.frames| <= |l.frames|
    decreases |l.frames|
  {
    var f := ReadFrame(l);
    var l1 := AfterRead(l);
    if f.Status? && |f.text| >= 4 && TagOf(f.text) == Info {
      var l2 := l1.(infos := l1.infos + [Body(f.text)]);
      RespondKeeps(l2, size, want);
      assert Respond(l, size, want) == Respond(l2, size, want);
    }
  }

  /** One "INFO" frame is printed and skipped. */
  lemma RespondInfo(l: Link, size: nat, want: bool)
    requires !l.closed && l.frames != [] && IsInfo(l.frames[0])
    ensures Respond(l, size, want) ==
            Respond(l.(frames := l.frames[1..], infos := l.infos + [InfoBody(l.frames[0])]), size, want)
  {
  }

  lemma InfoBodiesCons(xs: seq<string>, p: seq<Frame>)
    requires p != []
    ensures (xs + [InfoBody(p[0])]) + InfoBodies(p[1..]) == xs + InfoBodies(p)
  {
    assert InfoBodies(p) == [InfoBody(p[0])] + InfoBodies(p[1..]);
  }

  /** Every frame of the run is an "INFO" frame. */
  predicate AllInfo(p: seq<Frame>)
  {
    forall i :: 0 <= i < |p| ==> IsInfo(p[i])
  }

  /** A run of "INFO" frames is printed and skipped: the answer is the one after it. */
  lemma {:induction false} RespondAfterInfo(l: Link, p: seq<Frame>, rest: seq<Frame>, size: nat, want: bool)
    requires !l.closed && l.frames == p + rest && AllInfo(p)
    ensures Respond(l, size, want) == Respond(l.(frames := rest, infos := l.infos + InfoBodies(p)), size, want)
    decreases |p|
  {
    if p != [] {
      var l1 := l.(frames := l.frames[1..], infos := l.infos + [InfoBody(p[0])]);
      InfoStepLink(l, p, rest);
      RespondInfo(l, size, want);
      RespondAfterInfo(l1, p[1..], rest, size, want);
    } else {
      assert rest == l.frames && l.infos + InfoBodies(p) == l.infos;
      assert l.(frames := rest, infos := l.infos + InfoBodies(p)) == l;
    }
  }

  /** The first frame of an "INFO" run is an "INFO" frame, and the rest of the run is one too. */
  lemma InfoRunHead(frames: seq<Frame>, p: seq<Frame>, rest: seq<Frame>)
    requires p != [] && frames == p + rest && AllInfo(p)
    ensures frames != [] && frames[0] == p[0] && IsInfo(frames[0]) && AllInfo(p[1..]) && frames[1..] == p[1..] + rest
  {
    assert frames[0] == p[0] && IsInfo(p[0]);
    assert frames[1..] == p[1..] + rest;
    assert forall i :: 0 <= i < |p| - 1 ==> p[1..][i] == p[i + 1];
  }

  /** The link after one "INFO" frame of the run, and after the rest of the run. */
  lemma InfoStepLink(l: Link, p: seq<Frame>, rest: seq<Frame>)
    requires p != [] && l.frames == p + rest && AllInfo(p)
    ensures l.frames != [] && IsInfo(l.frames[0]) && AllInfo(p[1..])
    ensures var l1 := l.(frames := l.frames[1..], infos := l.infos + [InfoBody(p[0])]);
      l1.frames == p[1..] + rest && l1.infos == l.infos + [InfoBody(l.frames[0])] &&
      l1.(frames := rest, infos := l1.infos + InfoBodies(p[1..])) == l.(frames := rest, infos := l.infos + InfoBodies(p))
  {
    InfoRunHead(l.frames, p, rest);
    InfoBodiesCons(l.infos, p);
  }

  /** The deciding frame when it is the first one read. */
  lemma RespondFirst(l: Link, f: Frame, rest: seq<Frame>, size: nat, want: bool)
    requires !l.closed && l.frames == [f] + rest && !IsInfo(f)
    ensures var s := Respond(l, size, want);
      s.link.frames == rest && s.link.infos == l.infos &&
      (s.ret == 0 <==> (f.Status? && |f.text| >= 4 && TagOf(f.text) == Okay) ||
                       (f.Status? && |f.text| >= 4 && TagOf(f.text) == DataTag && 0 < size &&
                        DataSize(Body(f.text)) == 0)) &&
      (f.Status? && |f.text| >= 4 && TagOf(f.text) == Okay ==>
         s.response == (if want then Body(f.text) else "") && !s.link.closed && s.link.error == l.error) &&
      (f.Status? && |f.text| >= 4 && TagOf(f.text) == Fail ==>
         s.ret == -1 && !s.link.closed &&
         s.link.error == Some(if |f.text| > 4 then Remote(Body(f.text)) else RemoteFailure)) &&
      (f.Status? && |f.text| >= 4 && TagOf(f.text) == DataTag && size > 0 ==>
         if DataSize(Body(f.text)) > size then s.ret == -1 && s.link.closed && s.link.error == Some(DataSizeTooLarge)
         else s.ret == AsInt(DataSize(Body(f.text))) && !s.link.closed) &&
      (f.ReadFailed? || |f.text| < 4 || TagOf(f.text) == Other || (TagOf(f.text) == DataTag && size == 0) ==>
         s.ret == -1 && s.link.closed)
  {
    assert ReadFrame(l) == f && AfterRead(l) == l.(frames := rest);
  }

  /**
   * The frame after the "INFO" run decides the command: "OKAY" gives 0 and
   * its text, "FAIL" the device's message with the transport left open,
   * "DATA" (only when a size was announced) its size if that is within
   * the announced one; anything else gives -1 and closes the transport.
   */
  lemma RespondDecided(l: Link, p: seq<Frame>, f: Frame, rest: seq<Frame>, size: nat, want: bool)
    requires !l.closed && l.frames == p + [f] + rest
    requires AllInfo(p) && !IsInfo(f)
    ensures var s := Respond(l, size, want);
      s.link.frames == rest && s.link.infos == l.infos + InfoBodies(p) &&
      (s.ret == 0 <==> (f.Status? && |f.text| >= 4 && TagOf(f.text) == Okay) ||
                       (f.Status? && |f.text| >= 4 && TagOf(f.text) == DataTag && 0 < size &&
                        DataSize(Body(f.text)) == 0)) &&
      (f.Status? && |f.text| >= 4 && TagOf(f.text) == Okay ==>
         s.response == (if want then Body(f.text) else "") && !s.link.closed && s.link.error == l.error) &&
      (f.Status? && |f.text| >= 4 && TagOf(f.text) == Fail ==>
         s.ret == -1 && !s.link.closed &&
         s.link.error == Some(if |f.text| > 4 then Remote(Body(f.text)) else RemoteFailure)) &&
      (f.Status? && |f.text| >= 4 && TagOf(f.text) == DataTag && size > 0 ==>
         if DataSize(Body(f.text)) > size then s.ret == -1 && s.link.closed && s.link.error == Some(DataSizeTooLarge)
         else s.ret == AsInt(DataSize(Body(f.text))) && !s.link.closed) &&
      (f.ReadFailed? || |f.text| < 4 || TagOf(f.text) == Other || (TagOf(f.text) == DataTag && size == 0) ==>
         s.ret == -1 && s.link.closed)
  {
    assert l.frames == p + ([f] + rest);
    RespondAfterInfo(l, p, [f] + rest, size, want);
    var l1 := l.(frames := [f] + rest, infos := l.infos + InfoBodies(p));
    RespondFirst(l1, f, rest, size, want);
  }

  // ---------------------------------------------------------------------
  // Commands

  /**
   * _command_start: the response is cleared; a command over 64 bytes is
   * refused before anything is written; a short command write closes the
   * transport; otherwise the status frames decide.
   */
  function Start(l: Link, cmd: string, size: nat, want: bool): (s: Step)
    ensures |cmd| > COMMAND_MAX ==> s.ret == -1 && s.link.written == l.written && s.link.error == Some(CommandTooLarge)
    ensures s.ret != 0 ==> s.response == ""
    ensures s.ret >= 0 ==> |cmd| <= COMMAND_MAX && WriteReply(l) == |cmd| && s.link.written == l.written + [Command(cmd)]
    ensures s.link.written == l.written || s.link.written == l.written + [Command(cmd)]
    ensures s.ret <= size && (size == 0 ==> s.ret <= 0)
  {
    if |cmd| > COMMAND_MAX then Step(Failing(l, CommandTooLarge), -1, "")
    else
      var l1 := AfterWrite(l, Command(cmd));
      if WriteReply(l) != |cmd| then Step(Closing(l1, CommandWriteFailed), -1, "")
      else Respond(l1, size, want)
  }

  /** _command_data: a failed or short write gives -1 and closes the transport; a full one gives its size. */
  function DataPhase(l: Link, data: seq<Byte>): (s: Step)
    ensures s.link.written == l.written + [Data(data)] && s.response == ""
    ensures s.ret == |data| <==> WriteReply(l) == |data|
    ensures s.ret != |data| ==> s.ret == -1 && s.link.closed && s.link.error.Some?
    ensures s.ret == |data| ==> s.link.closed == l.closed && s.link.error == l.error
  {
    var r := WriteReply(l);
    var l1 := AfterWrite(l, Data(data));
    if r < 0 then Step(Closing(l1, DataTransferFailure), -1, "")
    else if r != |data| then Step(Closing(l1, ShortTransfer), -1, "")
    else Step(l1, r, "")
  }

  /** _command_end: the final status, 0 on "OKAY" and -1 on anything else. */
  function End(l: Link): (s: Step)
    ensures s.ret == 0 || s.ret == -1
    ensures s.ret == 0 ==> !l.closed && !s.link.closed
    ensures s.link.written == l.written && s.response == ""
  {
    var s := Respond(l, 0, false);
    RespondKeeps(l, 0, false);
    Step(s.link, if s.ret < 0 then -1 else 0, "")
  }

  /**
   * _command_send: nothing happens for an empty payload; otherwise the
   * command, the payload and the final status, each stopping the rest on
   * failure. The result is the payload size or -1.
   */
  function Send(l: Link, cmd: string, data: seq<Byte>, want: bool): (s: Step)
    ensures |data| == 0 ==> s == Step(l, -1, "")
    ensures s.ret == -1 || (s.ret == |data| && |data| > 0)
    ensures s.ret == |data| ==> s.link.written == l.written + [Command(cmd), Data(data)]
    ensures s.link.written == l.written || s.link.written == l.written + [Command(cmd)] ||
            s.link.written == l.written + [Command(cmd), Data(data)]
  {
    if |data| == 0 then Step(l, -1, "")
    else
      var a := Start(l, cmd, |data|, want);
      if a.ret < 0 then Step(a.link, -1, a.response)
      else
        var b := DataPhase(a.link, data);
        if b.ret < 0 then Step(b.link, -1, a.response)
        else
          var c := End(b.link);
          if c.ret < 0 then Step(c.link, -1, a.response)
          else Step(c.link, |data|, a.response)
  }

  /** sprintf(cmd, "download:%08x", size). */
  function DownloadCommand(size: nat): string
  {
    "download:" + HexFixed(size, 8)
  }

  /** The download command fits in one command write and the device reads the size back from it. */
  lemma DownloadCommandReadBack(size: nat)
    requires size < UINT_RANGE
    ensures |DownloadCommand(size)| == 17 && 17 <= COMMAND_MAX
    ensures StartsWith(DownloadCommand(size), "download:")
    ensures HexToNat(DownloadCommand(size)[9..]) == size
  {
    assert Pow16(8) == UINT_RANGE;
    assert DownloadCommand(size)[9..] == HexFixed(size, 8);
    HexToNatOfHexFixed(size);
  }

  /** fb_download_data: 0 when the command, the payload and the final status all succeed, else -1. */
  function Download(l: Link, data: seq<Byte>): (s: Step)
    ensures s.ret == 0 || s.ret == -1
    ensures |data| == 0 ==> s.ret == -1 && s.link == l
    ensures s.ret == 0 ==> s.link.written == l.written + [Command(DownloadCommand(|data|)), Data(data)]
  {
    var s := Send(l, DownloadCommand(|data|), data, false);
    Step(s.link, if s.ret < 0 then -1 else 0, "")
  }

  // ---------------------------------------------------------------------
  // Sparse downloads through the 512-byte staging buffer

  /** The bytes the data packets carry, in order. */
  function Payload(ps: seq<Packet>): seq<Byte>
  {
    if ps == [] then []
    else Payload(ps[..|ps| - 1]) + (if ps[|ps| - 1].Data? then ps[|ps| - 1].bytes else [])
  }

  lemma {:induction false} PayloadAppend(a: seq<Packet>, b: seq<Packet>)
    ensures Payload(a + b) == Payload(a) + Payload(b)
    decreases |b|
  {
    if b == [] {
      assert a + b == a;
    } else {
      assert (a + b)[..|a + b| - 1] == a + b[..|b| - 1];
      assert (a + b)[|a + b| - 1] == b[|b| - 1];
      PayloadAppend(a, b[..|b| - 1]);
    }
  }

  /** Every packet is data whose length is a positive multiple of 512. */
  predicate Blocks(ps: seq<Packet>)
  {
    forall i :: 0 <= i < |ps| ==> ps[i].Data? && |ps[i].bytes| > 0 && |ps[i].bytes| % TRANS_BUF_SIZE == 0
  }

  /** The bytes the staging buffer takes from a new chunk before it is flushed. */
  function FillCount(b: seq<Byte>, data: seq<Byte>): nat
    requires |b| <= TRANS_BUF_SIZE
  {
    if |b| != 0 then Min(TRANS_BUF_SIZE - |b|, |data|) else 0
  }

  /**
   * fb_download_data_sparse_write: top up a partly filled buffer, send it
   * once it is full, send whole blocks straight from the chunk, keep what
   * is left in the buffer.
   */
  function SparseWrite(l: Link, b: seq<Byte>, data: seq<Byte>): (s: SparseStep)
    requires |b| <= TRANS_BUF_SIZE
    ensures |s.buffered| <= TRANS_BUF_SIZE
  {
    var k := FillCount(b, data);
    var b1 := b + data[..k];
    var rest := data[k..];
    if |b1| == TRANS_BUF_SIZE then
      var d := DataPhase(l, b1);
      if d.ret != TRANS_BUF_SIZE then SparseStep(d.link, b1, -1) else SparseBulk(d.link, [], rest)
    else SparseBulk(l, b1, rest)
  }

  function SparseBulk(l: Link, b: seq<Byte>, rest: seq<Byte>): (s: SparseStep)
    requires |b| <= TRANS_BUF_SIZE
    ensures |s.buffered| <= TRANS_BUF_SIZE
  {
    if |rest| > TRANS_BUF_SIZE then
      if |b| > 0 then SparseStep(Failing(l, TransBufNotEmpty), b, -1)
      else
        var w := |rest| - |rest| % TRANS_BUF_SIZE;
        var d := DataPhase(l, rest[..w]);
        if d.ret != w then SparseStep(d.link, b, -1) else SparseTail(d.link, b, rest[w..])
    else SparseTail(l, b, rest)
  }

  function SparseTail(l: Link, b: seq<Byte>, rest: seq<Byte>): (s: SparseStep)
    requires |b| <= TRANS_BUF_SIZE
    ensures |s.buffered| <= TRANS_BUF_SIZE
  {
    if |rest| > 0 then
      if |rest| > TRANS_BUF_SIZE then SparseStep(Failing(l, TooMuchLeft), b, -1)
      else SparseStep(l, rest, 0)
    else SparseStep(l, b, 0)
  }

  /** The bytes sent followed by the bytes kept are the bytes given, in whole blocks; only a transport failure stops it. */
  predicate Delivered(l: Link, b: seq<Byte>, data: seq<Byte>, s: SparseStep)
  {
    l.written <= s.link.written &&
    (s.ret == 0 || (s.ret == -1 && s.link.closed)) &&
    (s.ret == 0 ==> Payload(s.link.written[|l.written|..]) + s.buffered == b + data &&
                    Blocks(s.link.written[|l.written|..]))
  }

  /** Nothing sent and the bytes kept are the bytes given. */
  lemma DeliveredKept(l: Link, b: seq<Byte>, data: seq<Byte>, s: SparseStep)
    requires s.link == l && s.ret == 0 && s.buffered == b + data
    ensures Delivered(l, b, data, s)
  {
    assert l.written[|l.written|..] == [];
  }

  /** One whole-block packet sent successfully, followed by a delivering step. */
  lemma DeliveredAfterBlock(l: Link, m: Link, x: seq<Byte>, b: seq<Byte>, data: seq<Byte>,
                            b2: seq<Byte>, rest: seq<Byte>, s: SparseStep)
    requires m.written == l.written + [Data(x)] && |x| > 0 && |x| % TRANS_BUF_SIZE == 0
    requires b + data == x + (b2 + rest)
    requires Delivered(m, b2, rest, s)
    ensures Delivered(l, b, data, s)
  {
    if s.ret == 0 {
      var ps := s.link.written[|l.written|..];
      var qs := s.link.written[|m.written|..];
      assert ps == [Data(x)] + qs;
      PayloadAppend([Data(x)], qs);
      assert Payload([Data(x)]) == x;
    }
  }

  /** Two delivering steps in a row deliver the two inputs in order. */
  lemma DeliveredChain(l: Link, b: seq<Byte>, d1: seq<Byte>, s: SparseStep, d2: seq<Byte>, t: SparseStep)
    requires Delivered(l, b, d1, s) && s.ret == 0 && Delivered(s.link, s.buffered, d2, t)
    ensures Delivered(l, b, d1 + d2, t)
  {
    if t.ret == 0 {
      var ps := s.link.written[|l.written|..];
      var qs := t.link.written[|s.link.written|..];
      assert t.link.written[|l.written|..] == ps + qs;
      PayloadAppend(ps, qs);
      Regroup(Payload(ps), Payload(qs), t.buffered, s.buffered, b, d1, d2);
    }
  }

  /** What the first step keeps is what the second one starts from. */
  lemma Regroup(x: seq<Byte>, y: seq<Byte>, z: seq<Byte>, m: seq<Byte>, b: seq<Byte>, d1: seq<Byte>, d2: seq<Byte>)
    requires x + m == b + d1 && y + z == m + d2
    ensures (x + y) + z == b + (d1 + d2)
  {
    calc {
      (x + y) + z;
      x + (y + z);
      x + (m + d2);
      (x + m) + d2;
      (b + d1) + d2;
      b + (d1 + d2);
    }
  }

  lemma SparseTailDelivers(l: Link, b: seq<Byte>, rest: seq<Byte>)
    requires |b| <= TRANS_BUF_SIZE && |rest| <= TRANS_BUF_SIZE && (|b| > 0 ==> rest == [])
    ensures Delivered(l, b, rest, SparseTail(l, b, rest))
  {
    if rest == [] {
      assert b + rest == b;
    }
    DeliveredKept(l, b, rest, SparseTail(l, b, rest));
  }

  lemma SparseBulkDelivers(l: Link, b: seq<Byte>, rest: seq<Byte>)
    requires |b| <= TRANS_BUF_SIZE && (|b| > 0 ==> rest == [])
    ensures Delivered(l, b, rest, SparseBulk(l, b, rest))
  {
    if |rest| > TRANS_BUF_SIZE {
      var w := |rest| - |rest| % TRANS_BUF_SIZE;
      var d := DataPhase(l, rest[..w]);
      if d.ret == w {
        SparseTailDelivers(d.link, b, rest[w..]);
        assert b + rest == rest[..w] + (b + rest[w..]);
        DeliveredAfterBlock(l, d.link, rest[..w], b, rest, b, rest[w..], SparseTail(d.link, b, rest[w..]));
      }
    } else {
      SparseTailDelivers(l, b, rest);
    }
  }

  /**
   * A chunk handed to the sparse write callback: the buffer stays within
   * 512 bytes, everything sent is whole blocks, and the bytes sent
   * followed by the bytes buffered are the buffered bytes followed by the
   * chunk. The two "internal error" branches cannot be taken: only a
   * transport failure makes it fail.
   */
  lemma SparseWriteDelivers(l: Link, b: seq<Byte>, data: seq<Byte>)
    requires |b| <= TRANS_BUF_SIZE
    ensures Delivered(l, b, data, SparseWrite(l, b, data))
  {
    var k := FillCount(b, data);
    var b1 := b + data[..k];
    var rest := data[k..];
    assert b1 + rest == b + data;
    if |b1| == TRANS_BUF_SIZE {
      var d := DataPhase(l, b1);
      if d.ret == TRANS_BUF_SIZE {
        SparseBulkDelivers(d.link, [], rest);
        assert b + data == b1 + ([] + rest);
        DeliveredAfterBlock(l, d.link, b1, b, data, [], rest, SparseBulk(d.link, [], rest));
      }
    } else {
      SparseBulkDelivers(l, b1, rest);
      var s := SparseBulk(l, b1, rest);
      if s.ret == 0 {
        assert Payload(s.link.written[|l.written|..]) + s.buffered == b + data;
      }
    }
  }

  /** fb_download_data_sparse_flush: whatever is buffered goes out in one write, leaving the buffer empty. */
  function SparseFlush(l: Link, b: seq<Byte>): (s: SparseStep)
    requires |b| <= TRANS_BUF_SIZE
    ensures l.written <= s.link.written && |s.buffered| <= TRANS_BUF_SIZE
    ensures s.ret == 0 || (s.ret == -1 && s.link.closed)
    ensures s.ret == 0 ==> s.buffered == [] && Payload(s.link.written[|l.written|..]) == b
    ensures b == [] ==> s == SparseStep(l, b, 0)
  {
    if |b| > 0 then
      var d := DataPhase(l, b);
      assert d.link.written[|l.written|..] == [Data(b)];
      assert Payload([Data(b)]) == b;
      if d.ret != |b| then SparseStep(d.link, b, -1) else SparseStep(d.link, [], 0)
    else
      assert l.written[|l.written|..] == [];
      SparseStep(l, b, 0)
  }

  function Concat(chunks: seq<seq<Byte>>): seq<Byte>
  {
    if chunks == [] then [] else chunks[0] + Concat(chunks[1..])
  }

  /** sparse_file_callback: the image's pieces through the write callback, in order, until one fails. */
  function SparseCallback(l: Link, b: seq<Byte>, chunks: seq<seq<Byte>>): (s: SparseStep)
    requires |b| <= TRANS_BUF_SIZE
    ensures |s.buffered| <= TRANS_BUF_SIZE
    decreases |chunks|
  {
    if chunks == [] then SparseStep(l, b, 0)
    else
      var s := SparseWrite(l, b, chunks[0]);
      if s.ret < 0 then s else SparseCallback(s.link, s.buffered, chunks[1..])
  }

  lemma {:induction false} SparseCallbackDelivers(l: Link, b: seq<Byte>, chunks: seq<seq<Byte>>)
    requires |b| <= TRANS_BUF_SIZE
    ensures Delivered(l, b, Concat(chunks), SparseCallback(l, b, chunks))
    decreases |chunks|
  {
    if chunks == [] {
      assert b + Concat(chunks) == b;
      DeliveredKept(l, b, Concat(chunks), SparseCallback(l, b, chunks));
    } else {
      SparseWriteDelivers(l, b, chunks[0]);
      var s := SparseWrite(l, b, chunks[0]);
      if s.ret == 0 {
        SparseCallbackDelivers(s.link, s.buffered, chunks[1..]);
        DeliveredChain(l, b, chunks[0], s, Concat(chunks[1..]), SparseCallback(s.link, s.buffered, chunks[1..]));
      }
    }
  }

  /**
   * fb_download_data_sparse: announce the image's size, stream its pieces
   * through the buffer, flush it (a failure there is not looked at) and
   * read the final status.
   */
  function SparseDownload(l: Link, b: seq<Byte>, size: int, chunks: seq<seq<Byte>>): (s: SparseStep)
    requires |b| <= TRANS_BUF_SIZE
    ensures |s.buffered| <= TRANS_BUF_SIZE
  {
    if size <= 0 then SparseStep(l, b, -1)
    else
      var a := Start(l, DownloadCommand(size), size, false);
      if a.ret < 0 then SparseStep(a.link, b, -1)
      else
        var c := SparseCallback(a.link, b, chunks);
        if c.ret < 0 then SparseStep(c.link, c.buffered, -1)
        else
          var f := SparseFlush(c.link, c.buffered);
          var e := End(f.link);
          SparseStep(e.link, f.buffered, e.ret)
  }

  /** After the callbacks delivered b + data, a flush and a successful final status leave all of it sent. */
  lemma FlushEndDelivers(l: Link, b: seq<Byte>, data: seq<Byte>, c: SparseStep)
    requires |c.buffered| <= TRANS_BUF_SIZE && Delivered(l, b, data, c) && c.ret == 0
    ensures var f := SparseFlush(c.link, c.buffered); var e := End(f.link);
      e.ret == 0 ==> (l.written <= e.link.written && f.buffered == [] &&
        Payload(e.link.written[|l.written|..]) == b + data)
  {
    var f := SparseFlush(c.link, c.buffered);
    var e := End(f.link);
    if e.ret == 0 {
      var ps := c.link.written[|l.written|..];
      var qs := f.link.written[|c.link.written|..];
      assert e.link.written[|l.written|..] == ps + qs;
      PayloadAppend(ps, qs);
    }
  }

  /**
   * A sparse download that succeeds wrote the download command and then
   * exactly the bytes that were buffered before it followed by the
   * image's pieces, and leaves the buffer empty. Although the flush's
   * result is not looked at, a failed flush closes the transport, so the
   * final status read fails too.
   */
  lemma SparseDownloadDelivers(l: Link, b: seq<Byte>, size: int, chunks: seq<seq<Byte>>)
    requires |b| <= TRANS_BUF_SIZE
    ensures var s := SparseDownload(l, b, size, chunks);
      (s.ret == 0 || s.ret == -1) &&
      (s.ret == 0 ==> (size > 0 && |s.link.written| > |l.written| &&
         s.link.written[..|l.written| + 1] == l.written + [Command(DownloadCommand(size))] &&
         Payload(s.link.written[|l.written| + 1..]) == b + Concat(chunks) &&
         s.buffered == []))
  {
    if size > 0 {
      var cmd := DownloadCommand(size);
      var a := Start(l, cmd, size, false);
      if a.ret >= 0 {
        SparseCallbackDelivers(a.link, b, chunks);
        var c := SparseCallback(a.link, b, chunks);
        if c.ret >= 0 {
          FlushEndDelivers(a.link, b, Concat(chunks), c);
          assert a.link.written == l.written + [Command(cmd)];
        }
      }
    }
  }

  // ---------------------------------------------------------------------
  // The imperative module: one transport and protocol.c's static state

  class Session {
    var frames: seq<Frame>
    var replies: seq<int>
    var written: seq<Packet>
    var closed: bool
    var infos: seq<string>
    var error: Option<FbError>
    const transBuf: array<Byte>
    var transBufLen: int

    predicate Valid()
      reads this
    {
      transBuf.Length == TRANS_BUF_SIZE && 0 <= transBufLen <= TRANS_BUF_SIZE
    }

    function State(): Link
      reads this
    {
      Link(frames, replies, written, closed, infos, error)
    }

    /** The bytes staged in trans_buf. */
    function Buffered(): seq<Byte>
      reads this, transBuf
      requires Valid()
    {
      transBuf[..transBufLen]
    }

    /** A fresh transport over the given script, with the module's zero-initialised statics. */
    constructor(script: seq<Frame>, counts: seq<int>)
      ensures Valid() && fresh(transBuf)
      ensures State() == Link(script, counts, [], false, [], None) && Buffered() == []
    {
      frames, replies, written, closed, infos, error := script, counts, [], false, [], None;
      transBuf := new Byte[TRANS_BUF_SIZE](_ => 0);
      transBufLen := 0;
    }

    method Read() returns (f: Frame)
      modifies this
      ensures f == ReadFrame(old(State())) && State() == AfterRead(old(State()))
      ensures transBufLen == old(transBufLen)
    {
      if closed || frames == [] {
        f := ReadFailed;
      } else {
        f := frames[0];
        frames := frames[1..];
      }
    }

    method Write(p: Packet) returns (r: int)
      modifies this
      ensures r == WriteReply(old(State())) && State() == AfterWrite(old(State()), p)
      ensures transBufLen == old(transBufLen)
    {
      written := written + [p];
      if closed || replies == [] {
        r := -1;
      } else {
        r := replies[0];
        replies := replies[1..];
      }
    }

    method Close()
      modifies this
      ensures State() == old(State()).(closed := true) && transBufLen == old(transBufLen)
    {
      closed := true;
    }

    /** check_response. */
    method CheckResponse(size: nat, want: bool) returns (r: int, response: string)
      modifies this
      ensures var s := Respond(old(State()), size, want); State() == s.link && r == s.ret && response == s.response
      ensures transBufLen == old(transBufLen)
    {
      while true
        invariant Respond(State(), size, want) == Respond(old(State()), size, want)
        invariant transBufLen == old(transBufLen)
        decreases |frames|
      {
        var f := Read();
        if f.ReadFailed? {
          error := Some(StatusReadFailed);
          Close();
          return -1, "";
        }
        var t := f.text;
        if |t| < 4 {
          error := Some(StatusMalformed(|t|));
          Close();
          return -1, "";
        }
        var tag := TagOf(t);
        if tag == Info {
          infos := infos + [Body(t)];
          continue;
        }
        if tag == Okay {
          response := if want then Body(t) else "";
          return 0, response;
        }
        if tag == Fail {
          error := Some(if |t| > 4 then Remote(Body(t)) else RemoteFailure);
          return -1, "";
        }
        if tag == DataTag && size > 0 {
          var dsize := DataSize(Body(t));
          if dsize > size {
            error := Some(DataSizeTooLarge);
            Close();
            return -1, "";
          }
          return AsInt(dsize), "";
        }
        error := Some(UnknownStatusCode);
        Close();
        break;
      }
      r, response := -1, "";
    }

    /** _command_start. */
    method CommandStart(cmd: string, size: nat, want: bool) returns (r: int, response: string)
      modifies this
      ensures var s := Start(old(State()), cmd, size, want); State() == s.link && r == s.ret && response == s.response
      ensures transBufLen == old(transBufLen)
    {
      response := "";
      if |cmd| > COMMAND_MAX {
        error := Some(CommandTooLarge);
        return -1, response;
      }
      var w := Write(Command(cmd));
      if w != |cmd| {
        error := Some(CommandWriteFailed);
        Close();
        return -1, response;
      }
      r, response := CheckResponse(size, want);
    }

    /** _command_data. */
    method CommandData(data: seq<Byte>) returns (r: int)
      modifies this
      ensures var s := DataPhase(old(State()), data); State() == s.link && r == s.ret
      ensures transBufLen == old(transBufLen)
    {
      r := Write(Data(data));
      if r < 0 {
        error := Some(DataTransferFailure);
        Close();
        return -1;
      }
      if r != |data| {
        error := Some(ShortTransfer);
        Close();
        return -1;
      }
    }

    /** _command_end. */
    method CommandEnd() returns (r: int)
      modifies this
      ensures var s := End(old(State())); State() == s.link && r == s.ret
      ensures transBufLen == old(transBufLen)
    {
      var resp;
      r, resp := CheckResponse(0, false);
      if r < 0 {
        return -1;
      }
      return 0;
    }

    /** _command_send. */
    method CommandSend(cmd: string, data: seq<Byte>, want: bool) returns (r: int, response: string)
      modifies this
      ensures var s := Send(old(State()), cmd, data, want); State() == s.link && r == s.ret && response == s.response
      ensures transBufLen == old(transBufLen)
    {
      response := "";
      if |data| == 0 {
        return -1, response;
      }
      r, response := CommandStart(cmd, |data|, want);
      if r < 0 {
        return -1, response;
      }
      r := CommandData(data);
      if r < 0 {
        return -1, response;
      }
      r := CommandEnd();
      if r < 0 {
        return -1, response;
      }
      return |data|, response;
    }

    /** fb_command: a command without payload and without a response buffer. */
    method FbCommand(cmd: string) returns (r: int)
      modifies this
      ensures var s := Start(old(State()), cmd, 0, false); State() == s.link && r == s.ret
      ensures transBufLen == old(transBufLen)
    {
      var resp;
      r, resp := CommandStart(cmd, 0, false);
    }

    /** fb_command_response: a command without payload whose "OKAY" text is returned. */
    method FbCommandResponse(cmd: string) returns (r: int, response: string)
      modifies this
      ensures var s := Start(old(State()), cmd, 0, true); State() == s.link && r == s.ret && response == s.response
      ensures transBufLen == old(transBufLen)
    {
      r, response := CommandStart(cmd, 0, true);
    }

    /** fb_download_data. */
    method DownloadData(data: seq<Byte>) returns (r: int)
      modifies this
      ensures var s := Download(old(State()), data); State() == s.link && r == s.ret
      ensures transBufLen == old(transBufLen)
    {
      var cmd := DownloadCommand(|data|);
      var resp;
      r, resp := CommandSend(cmd, data, false);
      if r < 0 {
        return -1;
      }
      return 0;
    }

    /** memcpy(trans_buf + off, src, |src|). */
    method CopyIn(off: nat, src: seq<Byte>)
      requires off + |src| <= transBuf.Length
      modifies transBuf
      ensures forall j :: 0 <= j < transBuf.Length ==>
        transBuf[j] == if off <= j < off + |src| then src[j - off] else old(transBuf[j])
    {
      var i := 0;
      while i < |src|
        invariant 0 <= i <= |src|
        invariant forall j :: 0 <= j < transBuf.Length ==>
          transBuf[j] == if off <= j < off + i then src[j - off] else old(transBuf[j])
      {
        transBuf[off + i] := src[i];
        i := i + 1;
      }
    }

    /** fb_download_data_sparse_write. */
    method WriteSparse(data: seq<Byte>) returns (r: int)
      requires Valid()
      modifies this, transBuf
      ensures Valid()
      ensures var s := SparseWrite(old(State()), old(Buffered()), data);
        State() == s.link && Buffered() == s.buffered && r == s.ret
    {
      var len := |data|;
      var ptr := 0;
      if transBufLen != 0 {
        var toWrite := Min(TRANS_BUF_SIZE - transBufLen, len);
        ghost var b := Buffered();
        CopyIn(transBufLen, data[..toWrite]);
        transBufLen := transBufLen + toWrite;
        assert Buffered() == b + data[..toWrite];
        ptr := toWrite;
        len := len - toWrite;
      }
      assert Buffered() == old(Buffered()) + data[..ptr] && ptr == FillCount(old(Buffered()), data);
      if transBufLen == TRANS_BUF_SIZE {
        assert transBuf[..] == Buffered();
        r := CommandData(transBuf[..]);
        if r != TRANS_BUF_SIZE {
          return -1;
        }
        transBufLen := 0;
      }
      r := SparseRest(data[ptr..]);
    }

    /** The second half of fb_download_data_sparse_write: whole blocks straight from the chunk, then the tail. */
    method SparseRest(rest: seq<Byte>) returns (r: int)
      requires Valid()
      modifies this, transBuf
      ensures Valid()
      ensures var s := SparseBulk(old(State()), old(Buffered()), rest);
        State() == s.link && Buffered() == s.buffered && r == s.ret
    {
      var len := |rest|;
      var ptr := 0;
      if len > TRANS_BUF_SIZE {
        if transBufLen > 0 {
          error := Some(TransBufNotEmpty);
          return -1;
        }
        var toWrite := len - len % TRANS_BUF_SIZE;
        r := CommandData(rest[..toWrite]);
        if r != toWrite {
          return -1;
        }
        ptr := toWrite;
      }
      r := SparseKeep(rest[ptr..]);
    }

    /** The last part of fb_download_data_sparse_write: what is left of the chunk is kept in trans_buf. */
    method SparseKeep(rest: seq<Byte>) returns (r: int)
      requires Valid()
      modifies this, transBuf
      ensures Valid()
      ensures var s := SparseTail(old(State()), old(Buffered()), rest);
        State() == s.link && Buffered() == s.buffered && r == s.ret
    {
      var len := |rest|;
      if len > 0 {
        if len > TRANS_BUF_SIZE {
          error := Some(TooMuchLeft);
          return -1;
        }
        CopyIn(0, rest);
        transBufLen := len;
        assert Buffered() == rest;
      }
      return 0;
    }

    /** fb_download_data_sparse_flush. */
    method FlushSparse() returns (r: int)
      requires Valid()
      modifies this
      ensures Valid()
      ensures var s := SparseFlush(old(State()), old(Buffered()));
        State() == s.link && Buffered() == s.buffered && r == s.ret
    {
      if transBufLen > 0 {
        r := CommandData(transBuf[..transBufLen]);
        if r != transBufLen {
          return -1;
        }
        transBufLen := 0;
      }
      return 0;
    }

    /**
     * fb_download_data_sparse, with the image given by its length and the
     * pieces sparse_file_callback hands to the write callback.
     */
    method DownloadSparse(size: int, chunks: seq<seq<Byte>>) returns (r: int)
      requires Valid()
      modifies this, transBuf
      ensures Valid()
      ensures var s := SparseDownload(old(State()), old(Buffered()), size, chunks);
        State() == s.link && Buffered() == s.buffered && r == s.ret
    {
      if size <= 0 {
        return -1;
      }
      var resp;
      r, resp := CommandStart(DownloadCommand(size), size, false);
      if r < 0 {
        return -1;
      }
      ghost var a := State();
      ghost var b := Buffered();
      var i := 0;
      while i < |chunks|
        invariant Valid() && 0 <= i <= |chunks|
        invariant SparseCallback(State(), Buffered(), chunks[i..]) == SparseCallback(a, b, chunks)
      {
        assert chunks[i..][1..] == chunks[i + 1..];
        var w := WriteSparse(chunks[i]);
        if w < 0 {
          return -1;
        }
        i := i + 1;
      }
      var flushed := FlushSparse();
      r := CommandEnd();
    }
  }
}
