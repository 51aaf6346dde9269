/** The driver's one session object, `struct sim9_t`: the status and
    error words, the identity and position buffers, and the usart port.
    Every routine of `sim9.c` is a method that updates the session in
    place, with the loops of the source, and is proved to leave the state
    that the matching function of `Protocol` or `Stages` computes. */
module Sim9 {
  import opened Sim9Header
  import opened CStrings
  import opened Transport
  import opened Protocol
  import opened Stages

  /** A poll outcome with earlier lines in front of its history. */
  ghost function Joined(t: seq<Line>, p: Polled): Polled
  {
    p.(taken := t + p.taken)
  }

  /** A search outcome with `n` earlier rounds counted in. */
  ghost function Counted(n: nat, f: Found): Found
  {
    f.(tries := f.tries + n)
  }

  lemma CountedAdd(a: nat, b: nat, f: Found)
    ensures Counted(a, Counted(b, f)) == Counted(a + b, f)
  {
  }

  /** A retry loop's outcome with `n` earlier rounds counted in. */
  ghost function Bumped(n: nat, r: Looped): Looped
  {
    r.(tries := r.tries + n)
  }

  /** One round of the escape loop, from the round's outcome `d`. */
  lemma EscapeStep(r0: Looped, done: nat, l: Link, echo: bool, connected: bool, retry: nat, d: Done)
    requires retry > 0
    requires r0 == Bumped(done, EscapeLoop(l, echo, connected, retry))
    requires d == Stages.EscapeRound(l, echo, connected)
    ensures d.ok ==> r0 == Looped(d.link, false, false, done + 1, [])
    ensures !d.ok ==> r0 == Bumped(done + 1, EscapeLoop(d.link, echo, true, retry - 1))
  {
  }

  /** One round of the identity loop, from the round's answer `a`. */
  lemma ImeiStep(r0: Looped, done: nat, l: Link, echo: bool, buf: seq<char>, retry: nat, a: Answer, missing: bool)
    requires |buf| == ImeiSize && retry > 0
    requires r0 == Bumped(done, ImeiLoop(l, echo, buf, true, retry))
    requires a == Stages.Query(l, echo, CmdCgsn, buf, ImeiSize as u8)
    requires missing == !(a.ok && StrLen(a.msg) > 14)
    ensures !missing || retry == 1 ==> r0 == Looped(a.link, missing, false, done + 1, a.msg)
    ensures missing && retry > 1 ==> r0 == Bumped(done + 1, ImeiLoop(a.link, echo, a.msg, true, retry - 1))
  {
  }

  /** One round of the registration loop, from the round's answer `a`. */
  lemma NetRegStep(r0: Looped, done: nat, l: Link, echo: bool, buf: seq<char>, retry: nat, a: Answer, missing: bool)
    requires |buf| == 20 && retry > 0
    requires r0 == Bumped(done, NetRegLoop(l, echo, buf, true, retry))
    requires a == Stages.Query(Tick(l), echo, CmdCgreg, buf, 20)
    requires missing == !(a.ok && MemEq(a.msg, 0, PatCgreg))
    ensures !missing || retry == 1 ==> r0 == Looped(a.link, missing, false, done + 1, a.msg)
    ensures missing && retry > 1 ==> r0 == Bumped(done + 1, NetRegLoop(a.link, echo, a.msg, true, retry - 1))
  {
  }

  /** One round of the attachment poll, from the check's outcome `c`. */
  lemma GprsStep(r0: Looped, done: nat, l: Link, echo: bool, gprs: bool, err: bool, want: bool,
                 retry: nat, c: Looped)
    requires r0 == Bumped(done, GprsPoll(l, echo, gprs, err, want, retry))
    requires c == Stages.Cgatt(l, echo, gprs, err)
    ensures c.flag == want || retry == 0 ==>
      r0.link == c.link && r0.flag == c.flag && r0.err == c.err && r0.tries == done + 1
    ensures !(c.flag == want || retry == 0) ==>
      r0 == Bumped(done + 1, GprsPoll(c.link, echo, c.flag, c.err, want, retry - 1))
  {
  }

  /** One round of the search, unfolded: the round either ends the
      search with its own verdict or leaves the rest of the search to do. */
  lemma ScanStep(f0: Found, done: nat, l: Link, pat: Text, buf: seq<char>, size: u8, code: u8,
                 count: nat, ok: bool, abort: bool, r: Read)
    requires size <= |buf|
    requires f0 == Counted(done, Protocol.Search(l, pat, buf, size, code, count))
    requires r == Protocol.Msg(l, buf, size, 1)
    requires ok == (r.len != 0 && Matches(code, pat, r.buf))
    requires abort == (r.len != 0 && !ok && ErrorAware(code) && StrEq(r.buf, ErrorReply))
    ensures ok || abort || count == 0 ==> f0 == Found(ok, r.buf, r.link, done + 1)
    ensures !(ok || abort || count == 0) ==>
      f0 == Counted(done + 1, Protocol.Search(r.link, pat, r.buf, size, code, count - 1))
  {
    ReaderConserves(size);
    Protocol.ScanRound(Reader(size), Test(code, pat), Fatal(code), l, buf, count);
    assert Reader(size)(l, buf) == r;
    if !(ok || abort || count == 0) {
      CountedAdd(done, 1, Protocol.Search(r.link, pat, r.buf, size, code, count - 1));
    }
  }

  lemma JoinedAssoc(a: seq<Line>, b: seq<Line>, p: Polled)
    ensures Joined(a, Joined(b, p)) == Joined(a + b, p)
  {
    assert a + (b + p.taken) == (a + b) + p.taken;
  }

  /** Copying one more line into the buffer extends its history by it. */
  lemma OverlaysSnoc(buf: seq<char>, taken: seq<Line>, t: seq<Line>, size: nat)
    requires size <= |buf| && |t| <= 1
    ensures Overlays(buf, taken + t, size)
      == if t == [] then Overlays(buf, taken, size) else Copied(Overlays(buf, taken, size), t[0], size)
  {
    if t != [] {
      assert (taken + t)[..|taken + t| - 1] == taken;
    } else {
      assert taken + t == taken;
    }
  }

  class Session {
    var status: Status
    var errors: Errors
    const imei: array<char>
    const gpsLat: array<char>
    const gpsLon: array<char>
    const usart: Usart

    /** The buffers have the sizes `sim9.h` gives them. */
    ghost predicate Valid()
      reads this
    {
      imei.Length == ImeiSize && gpsLat.Length == GpsLatSize && gpsLon.Length == GpsLonSize
    }

    /** The part of the session the stages read and write. */
    function State(): (s: Sim)
      reads this, imei, usart
      ensures s.imei == imei[..] && s.link == usart.link
    {
      Sim(status, errors, imei[..], usart.link)
    }

    /** `sim9_init`: both words cleared, the three strings allocated and
        emptied, the port opened on link `l`. */
    constructor (l: Link)
      ensures Valid() && fresh(imei) && fresh(gpsLat) && fresh(gpsLon) && fresh(usart)
      ensures status == StatusCleared && errors == NoErrors
      ensures imei[0] == NUL && gpsLat[0] == NUL && gpsLon[0] == NUL
      ensures usart.link == l && usart.open && !usart.suspended
    {
      status := StatusCleared;
      errors := NoErrors;
      var i := new char[ImeiSize];
      i[0] := NUL;
      imei := i;
      var la := new char[GpsLatSize];
      la[0] := NUL;
      gpsLat := la;
      var lo := new char[GpsLonSize];
      lo[0] := NUL;
      gpsLon := lo;
      usart := new Usart(l);
    }

    /** Writes the status word; nothing else changes. */
    method SetStatus(st: Status)
      modifies this`status
      ensures status == st && errors == old(errors)
      ensures imei[..] == old(imei[..]) && usart.link == old(usart.link) && usart.suspended == old(usart.suspended)
    {
      status := st;
    }

    /** Writes the error word; nothing else changes. */
    method SetErrors(e: Errors)
      modifies this`errors
      ensures errors == e && status == old(status)
      ensures imei[..] == old(imei[..]) && usart.link == old(usart.link) && usart.suspended == old(usart.suspended)
    {
      errors := e;
    }

    /** `sim9_shut`: the port is closed. */
    method Shut()
      modifies usart`open
      ensures !usart.open
    {
      usart.Shut();
    }

    /** `sim9_suspend`. */
    method Suspend()
      modifies usart`suspended
      ensures usart.suspended
    {
      usart.Suspend();
    }

    /** `sim9_resume`. */
    method Resume()
      modifies usart`suspended
      ensures status == old(status) && errors == old(errors)
      ensures imei[..] == old(imei[..]) && usart.link == old(usart.link)
      ensures !usart.suspended
    {
      usart.Resume();
    }

    /** `sim9_send` and `sim9_send_P`: print one string. */
    method Send(s: Text)
      modifies usart`link
      ensures status == old(status) && errors == old(errors)
      ensures imei[..] == old(imei[..]) && usart.suspended == old(usart.suspended)
      ensures usart.link == Sent(old(usart.link), s)
    {
      usart.PrintStr(s);
    }

    /** `sim9_clear_rx_buff`. */
    method ClearRxBuff()
      modifies usart`link
      ensures status == old(status) && errors == old(errors)
      ensures imei[..] == old(imei[..]) && usart.suspended == old(usart.suspended)
      ensures usart.link == Cleared(old(usart.link))
    {
      usart.ClearRxBuffer();
    }

    /** `_delay_ms`. */
    method Delay()
      modifies usart`link
      ensures status == old(status) && errors == old(errors)
      ensures imei[..] == old(imei[..]) && usart.suspended == old(usart.suspended)
      ensures usart.link == Tick(old(usart.link))
    {
      usart.Elapse();
    }

    // -------------------------------------------------------------------
    // sim9_msg, sim9_searchfor, sim9_send_at

    /** One pass of the polling loop of `sim9_msg`: wait, then read a line
        if the `eol` flag is up. */
    method PollStep(s: array<char>, size: u8) returns (n: u8, ghost t: seq<Line>)
      requires size <= s.Length
      modifies s, usart`link
      ensures Step(old(usart.link), size) == Polled(n, usart.link, t)
      ensures s[..] == if t == [] then old(s[..]) else Copied(old(s[..]), t[0], size)
    {
      usart.Elapse();
      n, t := 0, [];
      if |usart.link.rx| > 0 {
        t := [usart.link.rx[0]];
        n := usart.GetMsg(s, size);
      }
    }

    /** The polling loop of `sim9_msg`: `do … while (!len && loop--)`. */
    method PollLoop(s: array<char>, size: u8, timeout: u8) returns (len: u8, ghost taken: seq<Line>)
      requires size <= s.Length
      modifies s, usart`link
      ensures Poll(old(usart.link), size, timeout * 100) == Polled(len, usart.link, taken)
      ensures s[..] == Overlays(old(s[..]), taken, size)
    {
      ghost var p0 := Poll(usart.link, size, timeout * 100);
      ghost var b0 := s[..];
      taken := [];
      len := 0;
      var loop := timeout * 100;
      var go := true;
      while go
        invariant 0 <= loop <= timeout * 100
        invariant s[..] == Overlays(b0, taken, size)
        invariant go ==> len == 0 && p0 == Joined(taken, Poll(usart.link, size, loop))
        invariant !go ==> p0 == Polled(len, usart.link, taken)
        decreases go, loop
      {
        ghost var l := usart.link;
        ghost var r := Poll(l, size, loop);
        var n;
        ghost var t;
        n, t := PollStep(s, size);
        OverlaysSnoc(b0, taken, t, size);
        if n >= 3 {
          assert r == Step(l, size);
          len := n;
          go := false;
        } else if loop == 0 {
          assert r == Step(l, size).(len := 0);
          go := false;
        } else {
          assert r == Joined(t, Poll(usart.link, size, loop - 1));
          JoinedAssoc(taken, t, Poll(usart.link, size, loop - 1));
          loop := loop - 1;
        }
        taken := taken + t;
      }
    }

    /** `sim9_msg(s, size, timeout)`. */
    method Msg(s: array<char>, size: u8, timeout: u8) returns (len: u8)
      requires size <= s.Length
      modifies s, usart`link
      ensures status == old(status) && errors == old(errors)
      ensures usart.suspended == old(usart.suspended)
      ensures s != imei ==> imei[..] == old(imei[..])
      ensures var r := Protocol.Msg(old(usart.link), old(s[..]), size, timeout);
        len == r.len && s[..] == r.buf && usart.link == r.link
    {
      ghost var taken;
      len, taken := PollLoop(s, size, timeout);
      if len != 0 {
        s[len - 2] := NUL;
      }
    }

    /** One round of `sim9_searchfor`: read a message and compare it. */
    method ScanRound(pat: Text, buffer: array<char>, size: u8, code: u8)
      returns (ok: bool, abort: bool, ghost r: Read)
      requires size <= buffer.Length
      modifies buffer, usart`link
      ensures r == Protocol.Msg(old(usart.link), old(buffer[..]), size, 1)
      ensures buffer[..] == r.buf && usart.link == r.link
      ensures ok == (r.len != 0 && Matches(code, pat, r.buf))
      ensures abort == (r.len != 0 && !ok && ErrorAware(code) && StrEq(r.buf, ErrorReply))
    {
      r := Protocol.Msg(usart.link, buffer[..], size, 1);
      var len := Msg(buffer, size, 1);
      ok, abort := false, false;
      if len != 0 {
        ok := Matches(code, pat, buffer[..]);
        abort := !ok && ErrorAware(code) && StrEq(buffer[..], ErrorReply);
      }
    }

    /** A round followed by the test `!ok && count--`, where an "ERROR"
        has set the count to 0; `f0` is the outcome of the whole search,
        `done` rounds of which lie behind. */
    method ScanTurn(pat: Text, buffer: array<char>, size: u8, code: u8, left: u8,
                    ghost f0: Found, ghost done: nat)
      returns (ok: bool, go: bool, rest: u8)
      requires size <= buffer.Length
      requires f0 == Counted(done, Protocol.Search(usart.link, pat, buffer[..], size, code, left))
      modifies buffer, usart`link
      ensures go ==> rest < left && f0 == Counted(done + 1, Protocol.Search(usart.link, pat, buffer[..], size, code, rest))
      ensures !go ==> f0 == Found(ok, buffer[..], usart.link, done + 1)
    {
      ghost var l, b := usart.link, buffer[..];
      var abort;
      ghost var r;
      ok, abort, r := ScanRound(pat, buffer, size, code);
      ScanStep(f0, done, l, pat, b, size, code, left, ok, abort, r);
      go := !(ok || abort || left == 0);
      rest := if go then left - 1 else 0;
    }

    /** The do-while of `sim9_searchfor` over `buffer`. */
    method Scan(pat: Text, buffer: array<char>, size: u8, code: u8, count: u8) returns (ok: bool)
      requires size <= buffer.Length
      modifies buffer, usart`link
      ensures status == old(status) && errors == old(errors)
      ensures usart.suspended == old(usart.suspended)
      ensures buffer != imei ==> imei[..] == old(imei[..])
      ensures var f := Protocol.Search(old(usart.link), pat, old(buffer[..]), size, code, count);
        ok == f.ok && buffer[..] == f.buf && usart.link == f.link
    {
      ghost var f0 := Protocol.Search(usart.link, pat, buffer[..], size, code, count);
      ghost var done := 0;
      assert f0 == Counted(0, f0);
      var left := count;
      var go := true;
      ok := false;
      while go
        invariant go ==> f0 == Counted(done, Protocol.Search(usart.link, pat, buffer[..], size, code, left))
        invariant !go ==> f0 == Found(ok, buffer[..], usart.link, done)
        decreases go, left
      {
        ok, go, left := ScanTurn(pat, buffer, size, code, left, f0, done);
        done := done + 1;
      }
    }

    /** `sim9_searchfor(s, count, extbuff, extsize, type)`; `ext` is the
        caller's buffer or null. */
    method SearchFor(pat: Text, count: u8, ext: array?<char>, extSize: u8, code: u8) returns (ok: bool)
      requires ext != null ==> 1 <= ext.Length && extSize <= ext.Length
      modifies ext, usart`link
      ensures status == old(status) && errors == old(errors)
      ensures usart.suspended == old(usart.suspended)
      ensures ext != imei ==> imei[..] == old(imei[..])
      ensures var f := Protocol.SearchFor(old(usart.link), pat, count,
          if ext == null then None else Some(old(ext[..])), extSize, code);
        ok == f.ok && usart.link == f.link && (ext != null ==> ext[..] == f.buf)
    {
      var buffer: array<char>;
      var size: u8;
      if ext != null {
        buffer, size := ext, extSize;
      } else {
        size := usart.link.rxSize;
        buffer := new char[size](_ => NUL);
        assert buffer[..] == Zeros(usart.link.rxSize);
      }
      buffer[0] := NUL;
      ok := Scan(pat, buffer, size, code, count);
    }

    /** `sim9_searchfor_P`, with the pattern cut to the receive buffer. */
    method SearchForP(pat: Text, count: u8, ext: array?<char>, extSize: u8, code: u8) returns (ok: bool)
      requires ext != null ==> 1 <= ext.Length && extSize <= ext.Length
      modifies ext, usart`link
      ensures status == old(status) && errors == old(errors)
      ensures usart.suspended == old(usart.suspended)
      ensures ext != imei ==> imei[..] == old(imei[..])
      ensures var f := Protocol.SearchForP(old(usart.link), pat, count,
          if ext == null then None else Some(old(ext[..])), extSize, code);
        ok == f.ok && usart.link == f.link && (ext != null ==> ext[..] == f.buf)
    {
      ok := SearchFor(Truncate(pat, usart.link.rxSize), count, ext, extSize, code);
    }

    /** The `uint8_t` value `flags.eol + 1`. */
    method Budget() returns (b: u8)
      ensures b == Protocol.Budget(usart.link)
    {
      b := (|usart.link.rx| + 1) % 256;
    }

    /** The echo phase of `sim9_send_at`: with echo on, send the LF,
        wait, and look for the echoed command. */
    method EchoPhase(cmd: Text) returns (ok: bool)
      modifies usart`link
      ensures status == old(status) && errors == old(errors)
      ensures imei[..] == old(imei[..]) && usart.suspended == old(usart.suspended)
      ensures var f := Protocol.Echo(old(usart.link), status.echo, cmd);
        ok == f.ok && usart.link == f.link
    {
      ok := true;
      if status.echo {
        Send(LF);
        Delay();
        var b := Budget();
        ok := SearchFor(cmd, b, null, 0, EEqual.Code());
      }
    }

    /** The answer phase of `sim9_send_at`, entered with the echo's
        verdict: the `switch` on the answer type, whose MSGOK case falls
        through into the OK case. */
    method ReplyPhase(echoed: bool, msg: array?<char>, size: u8, code: u8) returns (ok: bool)
      requires ShapeOf(code) == AnswerMsgOk || ShapeOf(code) == AnswerMsg ==> msg != null && size <= msg.Length
      modifies msg, usart`link
      ensures status == old(status) && errors == old(errors)
      ensures usart.suspended == old(usart.suspended)
      ensures msg != imei ==> imei[..] == old(imei[..])
      ensures var a := Protocol.Reply(old(usart.link), echoed,
          if msg == null then [] else old(msg[..]), size, code);
        ok == a.ok && usart.link == a.link && (msg != null ==> msg[..] == a.msg)
    {
      ok := echoed;
      var shape := ShapeOf(code);
      if shape == AnswerMsgOk || shape == AnswerMsg {
        if ok {
          var b := Budget();
          var len := Msg(msg, size, b);
          ok := len != 0;
        }
      }
      if shape == AnswerMsgOk || shape == AnswerOk {
        if ok {
          var b := Budget();
          ok := SearchForP(OkReply, b, null, 0, EEqual.Code());
        }
      }
    }

    /** `sim9_send_at(cmd, msg, size, type)`; `msg` may be null when the
        type reads no message. */
    method SendAt(cmd: Text, msg: array?<char>, size: u8, code: u8) returns (ok: bool)
      requires ShapeOf(code) == AnswerMsgOk || ShapeOf(code) == AnswerMsg ==> msg != null && size <= msg.Length
      modifies msg, usart`link
      ensures status == old(status) && errors == old(errors)
      ensures usart.suspended == old(usart.suspended)
      ensures msg != imei ==> imei[..] == old(imei[..])
      ensures var a := Protocol.SendAt(old(usart.link), status.echo, cmd,
          if msg == null then [] else old(msg[..]), size, code);
        ok == a.ok && usart.link == a.link && (msg != null ==> msg[..] == a.msg)
    {
      Send(cmd);
      Send(CR);
      ok := EchoPhase(cmd);
      Delay();
      ok := ReplyPhase(ok, msg, size, code);
    }

    /** `sim9_send_at_P`, with the command cut to the receive buffer. */
    method SendAtP(cmd: Text, msg: array?<char>, size: u8, code: u8) returns (ok: bool)
      requires ShapeOf(code) == AnswerMsgOk || ShapeOf(code) == AnswerMsg ==> msg != null && size <= msg.Length
      modifies msg, usart`link
      ensures status == old(status) && errors == old(errors)
      ensures usart.suspended == old(usart.suspended)
      ensures msg != imei ==> imei[..] == old(imei[..])
      ensures var a := Protocol.SendAtP(old(usart.link), status.echo, cmd,
          if msg == null then [] else old(msg[..]), size, code);
        ok == a.ok && usart.link == a.link && (msg != null ==> msg[..] == a.msg)
    {
      ok := SendAt(Truncate(cmd, usart.link.rxSize), msg, size, code);
    }

    // -------------------------------------------------------------------
    // Commands

    /** `sim9_send_at_P(cmd, NULL, 0, shape)` for a shape that reads no
        message. */
    method Command(cmd: Text, shape: AnswerShape) returns (ok: bool)
      requires shape == AnswerNone || shape == AnswerOk
      modifies usart`link
      ensures status == old(status) && errors == old(errors)
      ensures imei[..] == old(imei[..]) && usart.suspended == old(usart.suspended)
      ensures var d := Stages.Command(old(usart.link), status.echo, cmd, shape);
        ok == d.ok && usart.link == d.link
    {
      ok := SendAtP(cmd, null, 0, shape.Code());
    }

    /** `sim9_send_at_P(cmd, buf, size, SENDAT_TYPE_MSGOK)`. */
    method Query(cmd: Text, buf: array<char>, size: u8) returns (ok: bool)
      requires size <= buf.Length
      modifies buf, usart`link
      ensures status == old(status) && errors == old(errors)
      ensures usart.suspended == old(usart.suspended)
      ensures buf != imei ==> imei[..] == old(imei[..])
      ensures var a := Stages.Query(old(usart.link), status.echo, cmd, old(buf[..]), size);
        ok == a.ok && buf[..] == a.msg && usart.link == a.link
    {
      ok := SendAtP(cmd, buf, size, AnswerMsgOk.Code());
    }

    // -------------------------------------------------------------------
    // sim9_escape

    /** The guarded `+++` of `sim9_escape`. */
    method Guard()
      modifies usart`link
      ensures status == old(status) && errors == old(errors)
      ensures imei[..] == old(imei[..]) && usart.suspended == old(usart.suspended)
      ensures usart.link == Stages.Guard(old(usart.link), status.echo)
    {
      Delay();
      Send(EscapeSeq);
      Delay();
      if status.echo {
        Send(CrLf);
        var echoed := SearchForP(EscapeSeq, 30, null, 0, Equal.Code());
      } else {
        Delay();
      }
    }

    /** One round of `sim9_escape`: the guard when connected, then `AT`. */
    method EscapeRound(connected: bool) returns (ok: bool)
      modifies usart`link
      ensures status == old(status) && errors == old(errors)
      ensures imei[..] == old(imei[..]) && usart.suspended == old(usart.suspended)
      ensures var d := Stages.EscapeRound(old(usart.link), status.echo, connected);
        ok == d.ok && usart.link == d.link
    {
      if connected {
        Guard();
      }
      ok := Command(CmdAt, AnswerOk);
    }

    /** A round of `sim9_escape` and its verdict on `status.connected`:
        an answer clears it and breaks the loop, silence sets it and goes
        on while rounds are left. */
    method EscapeTurn(connected: bool, retry: u8, ghost r0: Looped, ghost done: nat)
      returns (go: bool, now: bool, rest: u8)
      requires retry > 0
      requires r0 == Bumped(done, EscapeLoop(usart.link, status.echo, connected, retry))
      modifies usart`link
      ensures status == old(status) && errors == old(errors)
      ensures imei[..] == old(imei[..]) && usart.suspended == old(usart.suspended)
      ensures go ==> 0 < rest < retry && r0 == Bumped(done + 1, EscapeLoop(usart.link, status.echo, now, rest))
      ensures !go ==> r0 == Looped(usart.link, now, false, done + 1, [])
    {
      ghost var l := usart.link;
      var ok := EscapeRound(connected);
      EscapeStep(r0, done, l, status.echo, connected, retry, Done(ok, usart.link));
      now := !ok;
      go := now && retry > 1;
      rest := if go then retry - 1 else 0;
    }

    /** The `while (retry--)` of `sim9_escape`. The flag it keeps in
        `status.connected` is carried in `connected`, which nothing else
        reads during the rounds, and stored by the caller. */
    method EscapeRetries() returns (connected: bool)
      modifies usart`link
      ensures status == old(status) && errors == old(errors)
      ensures imei[..] == old(imei[..]) && usart.suspended == old(usart.suspended)
      ensures var r := EscapeLoop(old(usart.link), status.echo, status.connected, 3);
        connected == r.flag && usart.link == r.link
    {
      var retry: u8 := 3;
      connected := status.connected;
      ghost var r0 := EscapeLoop(usart.link, status.echo, connected, retry);
      ghost var done := 0;
      assert r0 == Bumped(0, r0);
      ghost var st, er, im, su := status, errors, imei[..], usart.suspended;
      var go := true;
      while go
        invariant status == st && errors == er && imei[..] == im && usart.suspended == su
        invariant go ==> retry > 0 && r0 == Bumped(done, EscapeLoop(usart.link, status.echo, connected, retry))
        invariant !go ==> r0 == Looped(usart.link, connected, false, done, [])
        decreases go, retry
      {
        go, connected, retry := EscapeTurn(connected, retry, r0, done);
        done := done + 1;
      }
    }

    /** `sim9_escape`. */
    method Escape()
      modifies this`status, this`errors, usart`link
      ensures usart.suspended == old(usart.suspended)
      ensures State() == Stages.Escape(old(State()))
    {
      var connected := EscapeRetries();
      SetStatus(status.(connected := connected));
      SetErrors(errors.(esc := connected));
    }

    // -------------------------------------------------------------------
    // imei

    /** A round of `imei`'s loop: ask for the identity into the session's
        buffer; it is still missing unless the command succeeds with more
        than 14 characters. */
    method ImeiTurn(retry: u8, ghost r0: Looped, ghost done: nat) returns (go: bool, missing: bool, rest: u8)
      requires Valid() && retry > 0
      requires r0 == Bumped(done, ImeiLoop(usart.link, status.echo, imei[..], true, retry))
      modifies imei, usart`link
      ensures status == old(status) && errors == old(errors)
      ensures usart.suspended == old(usart.suspended)
      ensures go ==> (missing && 0 < rest < retry
        && r0 == Bumped(done + 1, ImeiLoop(usart.link, status.echo, imei[..], true, rest)))
      ensures !go ==> r0 == Looped(usart.link, missing, false, done + 1, imei[..])
    {
      ghost var l, b := usart.link, imei[..];
      var ok := Query(CmdCgsn, imei, ImeiSize as u8);
      missing := !(ok && StrLen(imei[..]) > 14);
      ImeiStep(r0, done, l, status.echo, b, retry, Stages.Query(l, status.echo, CmdCgsn, b, ImeiSize as u8), missing);
      go := missing && retry > 1;
      rest := if go then retry - 1 else 0;
    }

    /** The `while (errors.imei && retry--)` of `imei`. The flag it keeps
        in `errors.imei` is carried in `missing` and stored by the caller. */
    method ImeiRetries() returns (missing: bool)
      requires Valid()
      modifies imei, usart`link
      ensures status == old(status) && errors == old(errors)
      ensures usart.suspended == old(usart.suspended)
      ensures var r := ImeiLoop(old(usart.link), status.echo, old(imei[..]), true, 10);
        missing == r.flag && imei[..] == r.buf && usart.link == r.link
    {
      var retry: u8 := 10;
      ghost var r0 := ImeiLoop(usart.link, status.echo, imei[..], true, retry);
      ghost var done := 0;
      assert r0 == Bumped(0, r0);
      missing := true;
      ghost var st, er, su := status, errors, usart.suspended;
      var go := true;
      while go
        invariant status == st && errors == er && usart.suspended == su
        invariant go ==> (missing && retry > 0
          && r0 == Bumped(done, ImeiLoop(usart.link, status.echo, imei[..], true, retry)))
        invariant !go ==> r0 == Looped(usart.link, missing, false, done, imei[..])
        decreases go, retry
      {
        go, missing, retry := ImeiTurn(retry, r0, done);
        done := done + 1;
      }
    }

    /** `imei`: the identity emptied and flagged missing, stale lines
        dropped, then up to ten attempts. */
    method Imei()
      requires Valid()
      modifies imei, this`errors, usart`link
      ensures usart.suspended == old(usart.suspended)
      ensures State() == Stages.Imei(old(State()))
    {
      imei[0] := NUL;
      SetErrors(errors.(imei := true));
      ClearRxBuff();
      var missing := ImeiRetries();
      SetErrors(errors.(imei := missing));
    }

    // -------------------------------------------------------------------
    // pin_check, network_registered

    /** `pin_check`, with its 20-byte buffer. */
    method PinCheck()
      modifies this`errors, usart`link
      ensures usart.suspended == old(usart.suspended)
      ensures State() == Stages.PinCheck(old(State()))
    {
      var buffer := new char[20](_ => NUL);
      assert buffer[..] == Zeros(20);
      var ok := Query(CmdCpin, buffer, 20);
      SetErrors(errors.(pin := !(ok && MemEq(buffer[..], 0, PatCpinReady))));
    }

    /** A round of `network_registered`'s loop: wait, query the
        registration, and accept `+CGREG: 0,1`. */
    method NetRegTurn(buffer: array<char>, retry: u8, ghost r0: Looped, ghost done: nat)
      returns (go: bool, missing: bool, rest: u8)
      requires buffer.Length == 20 && retry > 0
      requires r0 == Bumped(done, NetRegLoop(usart.link, status.echo, buffer[..], true, retry))
      modifies buffer, usart`link
      ensures status == old(status) && errors == old(errors)
      ensures usart.suspended == old(usart.suspended)
      ensures buffer != imei ==> imei[..] == old(imei[..])
      ensures go ==> (missing && 0 < rest < retry
        && r0 == Bumped(done + 1, NetRegLoop(usart.link, status.echo, buffer[..], true, rest)))
      ensures !go ==> r0 == Looped(usart.link, missing, false, done + 1, buffer[..])
    {
      ghost var l, b := usart.link, buffer[..];
      missing := CgregQuery(buffer);
      NetRegStep(r0, done, l, status.echo, b, retry, Stages.Query(Tick(l), status.echo, CmdCgreg, b, 20), missing);
      go := missing && retry > 1;
      rest := if go then retry - 1 else 0;
    }

    /** The wait and the registration query of a round of
        `network_registered`; `missing` when the answer is not
        `+CGREG: 0,1`. */
    method CgregQuery(buffer: array<char>) returns (missing: bool)
      requires buffer.Length == 20
      modifies buffer, usart`link
      ensures status == old(status) && errors == old(errors)
      ensures usart.suspended == old(usart.suspended)
      ensures buffer != imei ==> imei[..] == old(imei[..])
      ensures var a := Stages.Query(Tick(old(usart.link)), status.echo, CmdCgreg, old(buffer[..]), 20);
        missing == !(a.ok && MemEq(a.msg, 0, PatCgreg)) && usart.link == a.link && buffer[..] == a.msg
    {
      Delay();
      var ok := Query(CmdCgreg, buffer, 20);
      missing := !(ok && MemEq(buffer[..], 0, PatCgreg));
    }

    /** The `while (errors.netreg && retry--)` of `network_registered`,
        over the one buffer it allocated. */
    method NetRegRetries(buffer: array<char>) returns (missing: bool)
      requires buffer.Length == 20
      modifies buffer, usart`link
      ensures status == old(status) && errors == old(errors)
      ensures usart.suspended == old(usart.suspended)
      ensures buffer != imei ==> imei[..] == old(imei[..])
      ensures var r := NetRegLoop(old(usart.link), status.echo, old(buffer[..]), true, 5);
        missing == r.flag && usart.link == r.link
    {
      var retry: u8 := 5;
      ghost var r0 := NetRegLoop(usart.link, status.echo, buffer[..], true, retry);
      ghost var done := 0;
      assert r0 == Bumped(0, r0);
      missing := true;
      ghost var st, er, im, su := status, errors, imei[..], usart.suspended;
      var go := true;
      while go
        invariant status == st && errors == er && usart.suspended == su
        invariant buffer != imei ==> imei[..] == im
        invariant go ==> (missing && retry > 0
          && r0 == Bumped(done, NetRegLoop(usart.link, status.echo, buffer[..], true, retry)))
        invariant !go ==> r0.link == usart.link && r0.flag == missing
        decreases go, retry
      {
        go, missing, retry := NetRegTurn(buffer, retry, r0, done);
        done := done + 1;
      }
    }

    /** `network_registered`: up to five attempts. */
    method NetworkRegistered()
      modifies this`errors, usart`link
      ensures usart.suspended == old(usart.suspended)
      ensures State() == Stages.NetworkRegistered(old(State()))
    {
      var buffer := new char[20](_ => NUL);
      assert buffer[..] == Zeros(20);
      var missing := NetRegRetries(buffer);
      SetErrors(errors.(netReg := missing));
    }

    // -------------------------------------------------------------------
    // sim9_on, sim9_off

    /** The start of `sim9_on`: both words cleared, the port resumed, the
        power-up waits and the stale input dropped. */
    method PowerUp()
      modifies this`status, this`errors, usart`link, usart`suspended
      ensures State() == Stages.PowerUp(old(State())) && !usart.suspended
    {
      SetStatus(StatusCleared);
      SetErrors(NoErrors);
      Resume();
      Delay();
      Delay();
      Delay();
      ClearRxBuff();
    }

    /** The first commands of `sim9_on`: `AT`, the speed and the URC
        presentation. */
    method Preamble()
      modifies usart`link
      ensures status == old(status) && errors == old(errors)
      ensures imei[..] == old(imei[..]) && usart.suspended == old(usart.suspended)
      ensures usart.link == Batch(old(usart.link), status.echo, [CmdAt, CmdIpr, CmdCiurc])
    {
      ghost var l0 := usart.link;
      var ok := Command(CmdAt, AnswerOk);
      ghost var l1 := usart.link;
      ok := Command(CmdIpr, AnswerOk);
      ghost var l2 := usart.link;
      ok := Command(CmdCiurc, AnswerOk);
      assert usart.link == Batch(l2, status.echo, [CmdCiurc]);
      assert [CmdIpr, CmdCiurc][1..] == [CmdCiurc];
      assert usart.link == Batch(l1, status.echo, [CmdIpr, CmdCiurc]);
      assert [CmdAt, CmdIpr, CmdCiurc][1..] == [CmdIpr, CmdCiurc];
    }

    /** The wait of up to a minute for `Call Ready`, then stale input
        dropped. */
    method CallReady()
      modifies usart`link
      ensures status == old(status) && errors == old(errors)
      ensures imei[..] == old(imei[..]) && usart.suspended == old(usart.suspended)
      ensures usart.link == Cleared(Protocol.SearchForP(old(usart.link), PatCallReady, 60, None, 0, Equal.Code()).link)
    {
      var ok := SearchForP(PatCallReady, 60, null, 0, Equal.Code());
      ClearRxBuff();
    }

    /** The configuration of `sim9_on`. */
    method Configure()
      modifies this`errors, usart`link
      ensures usart.suspended == old(usart.suspended)
      ensures State() == Stages.Configure(old(State()))
    {
      Preamble();
      CallReady();
      var ok := Command(CmdFactory, AnswerOk);
      SetErrors(if ok then errors else errors.(init := true));
    }

    /** The net light commands, answers ignored. */
    method NetLight()
      modifies usart`link
      ensures status == old(status) && errors == old(errors)
      ensures imei[..] == old(imei[..]) && usart.suspended == old(usart.suspended)
      ensures usart.link == Batch(old(usart.link), status.echo, [CmdSleds1, CmdSleds2, CmdSleds3, CmdNetLight])
    {
      ghost var l0 := usart.link;
      var ok := Command(CmdSleds1, AnswerOk);
      ghost var l1 := usart.link;
      ok := Command(CmdSleds2, AnswerOk);
      ghost var l2 := usart.link;
      ok := Command(CmdSleds3, AnswerOk);
      ghost var l3 := usart.link;
      ok := Command(CmdNetLight, AnswerOk);
      assert usart.link == Batch(l3, status.echo, [CmdNetLight]);
      assert [CmdSleds3, CmdNetLight][1..] == [CmdNetLight];
      assert usart.link == Batch(l2, status.echo, [CmdSleds3, CmdNetLight]);
      assert [CmdSleds2, CmdSleds3, CmdNetLight][1..] == [CmdSleds3, CmdNetLight];
      assert usart.link == Batch(l1, status.echo, [CmdSleds2, CmdSleds3, CmdNetLight]);
      assert [CmdSleds1, CmdSleds2, CmdSleds3, CmdNetLight][1..] == [CmdSleds2, CmdSleds3, CmdNetLight];
    }

    /** The end of the configuration: echo chosen, and the net light set. */
    method Lights()
      modifies this`status, usart`link
      ensures usart.suspended == old(usart.suspended)
      ensures State() == Stages.Lights(old(State()))
    {
      SetStatus(status.(echo := EchoEnabled));
      var ok := Command(EchoCommand(status.echo), AnswerOk);
      NetLight();
      assert [EchoCommand(EchoEnabled), CmdSleds1, CmdSleds2, CmdSleds3, CmdNetLight][1..]
        == [CmdSleds1, CmdSleds2, CmdSleds3, CmdNetLight];
    }

    /** `sim9_on` up to the checks. */
    method OnSetup()
      modifies this`status, this`errors, usart`link, usart`suspended
      ensures State() == Stages.OnSetup(old(State())) && !usart.suspended
    {
      PowerUp();
      Configure();
      Lights();
    }

    /** The checks of `sim9_on`, each only while `errors.all` is zero. */
    method OnChecks()
      requires Valid()
      modifies imei, this`errors, usart`link
      ensures usart.suspended == old(usart.suspended)
      ensures State() == Stages.OnChecks(old(State()))
    {
      if errors.All() == 0 {
        PinCheck();
      }
      if errors.All() == 0 {
        Imei();
      }
      if errors.All() == 0 {
        Delay();
        NetworkRegistered();
      }
    }

    /** `sim9_on`, after the power pulse on the modem's pin. */
    method On()
      requires Valid()
      modifies imei, this`status, this`errors, usart`link, usart`suspended
      ensures State() == Stages.On(old(State())) && !usart.suspended
    {
      OnSetup();
      OnChecks();
    }

    /** `sim9_off`. */
    method Off()
      modifies this`status, this`errors, usart`link
      ensures usart.suspended == old(usart.suspended)
      ensures State() == Stages.Off(old(State()))
    {
      Send(CmdPowerDown);
      var ok := SearchForP(PatPowerDown, 5, null, 0, Relax.Code());
      if ok {
        SetStatus(status.(ready := false));
      } else {
        SetErrors(errors.(off := true));
      }
    }

    // -------------------------------------------------------------------
    // check_cgatt, gprs_connect, gprs_disconnect

    /** `check_cgatt` on the two flags it writes, `status.gprs` (`gprs`)
        and `errors.gprs` (`failed`), with its 15-byte buffer. */
    method Cgatt(gprs: bool, failed: bool) returns (flag: bool, err: bool)
      modifies usart`link
      ensures status == old(status) && errors == old(errors)
      ensures imei[..] == old(imei[..]) && usart.suspended == old(usart.suspended)
      ensures var r := Stages.Cgatt(old(usart.link), status.echo, gprs, failed);
        flag == r.flag && err == r.err && usart.link == r.link
    {
      var buffer := new char[15](_ => NUL);
      assert buffer[..] == Zeros(15);
      var ok := Query(CmdCgatt, buffer, 15);
      flag, err := gprs, failed;
      if ok {
        flag := MemEq(buffer[..], 0, PatCgatt);
      } else {
        err := true;
      }
    }

    /** `check_cgatt`. */
    method CheckCgatt()
      modifies this`status, this`errors, usart`link
      ensures usart.suspended == old(usart.suspended)
      ensures State() == Stages.CheckCgatt(old(State()))
    {
      var flag, err := Cgatt(status.gprs, errors.gprs);
      SetStatus(status.(gprs := flag));
      SetErrors(errors.(gprs := err));
    }

    /** A round of the attachment poll and the test that ends it: the
        wanted state reached, or no decrement left. */
    method GprsTurn(want: bool, gprs: bool, failed: bool, retry: u8, ghost r0: Looped, ghost done: nat)
      returns (go: bool, flag: bool, err: bool, rest: u8)
      requires r0 == Bumped(done, GprsPoll(usart.link, status.echo, gprs, failed, want, retry))
      modifies usart`link
      ensures status == old(status) && errors == old(errors)
      ensures imei[..] == old(imei[..]) && usart.suspended == old(usart.suspended)
      ensures go ==> rest < retry && r0 == Bumped(done + 1, GprsPoll(usart.link, status.echo, flag, err, want, rest))
      ensures !go ==> r0.link == usart.link && r0.flag == flag && r0.err == err && r0.tries == done + 1
    {
      ghost var l := usart.link;
      flag, err := Cgatt(gprs, failed);
      GprsStep(r0, done, l, status.echo, gprs, failed, want, retry, Stages.Cgatt(l, status.echo, gprs, failed));
      go := !(flag == want || retry == 0);
      rest := if go then retry - 1 else 0;
    }

    /** The `do check_cgatt(); while (… && retry--)` of `gprs_connect` and
        `gprs_disconnect`, entered with `errors.gprs` just cleared. The
        flags it keeps in the two words are carried in `flag` and `err`
        and stored by the caller. */
    method GprsRetries(want: bool) returns (flag: bool, err: bool)
      modifies usart`link
      ensures status == old(status) && errors == old(errors)
      ensures imei[..] == old(imei[..]) && usart.suspended == old(usart.suspended)
      ensures var r := GprsPoll(old(usart.link), status.echo, status.gprs, false, want, 5);
        flag == r.flag && err == r.err && usart.link == r.link
    {
      var retry: u8 := 5;
      flag, err := status.gprs, false;
      ghost var r0 := GprsPoll(usart.link, status.echo, flag, err, want, retry);
      ghost var done := 0;
      assert r0 == Bumped(0, r0);
      ghost var st, er, im, su := status, errors, imei[..], usart.suspended;
      var go := true;
      while go
        invariant status == st && errors == er && imei[..] == im && usart.suspended == su
        invariant go ==> r0 == Bumped(done, GprsPoll(usart.link, status.echo, flag, err, want, retry))
        invariant !go ==> r0.link == usart.link && r0.flag == flag && r0.err == err
        decreases go, retry
      {
        go, flag, err, retry := GprsTurn(want, flag, err, retry, r0, done);
        done := done + 1;
      }
    }

    /** The attach or detach command and, when it succeeds, the poll. */
    method GprsSwitch(cmd: Text, want: bool) returns (flag: bool, err: bool)
      modifies usart`link
      ensures status == old(status) && errors == old(errors)
      ensures imei[..] == old(imei[..]) && usart.suspended == old(usart.suspended)
      ensures var r := Stages.GprsSwitch(old(usart.link), status.echo, status.gprs, cmd, want);
        flag == r.flag && err == r.err && usart.link == r.link
    {
      var ok := Command(cmd, AnswerOk);
      if ok {
        flag, err := GprsRetries(want);
      } else {
        flag, err := status.gprs, true;
      }
    }

    /** `gprs_connect`. */
    method GprsConnect()
      modifies this`status, this`errors, usart`link
      ensures usart.suspended == old(usart.suspended)
      ensures State() == Stages.GprsConnect(old(State()))
    {
      SetErrors(errors.(gprs := false));
      var flag, err := GprsSwitch(CmdAttach, true);
      SetStatus(status.(gprs := flag));
      SetErrors(errors.(gprs := err));
    }

    /** `gprs_disconnect`. */
    method GprsDisconnect()
      modifies this`status, this`errors, usart`link
      ensures usart.suspended == old(usart.suspended)
      ensures State() == Stages.GprsDisconnect(old(State()))
    {
      SetErrors(errors.(gprs := false));
      var flag, err := GprsSwitch(CmdDetach, false);
      SetStatus(status.(gprs := flag));
      SetErrors(errors.(gprs := err));
    }

    // -------------------------------------------------------------------
    // apn_setup, gprs_wireless_connection, sim9_tcpip_on

    /** `apn_setup`. Its buffer comes from `malloc` uninitialised; `junk`
        is what it held. */
    method ApnSetup() returns (ghost junk: seq<char>)
      modifies this`status, this`errors, usart`link
      ensures |junk| == 30
      ensures usart.suspended == old(usart.suspended)
      ensures State() == Stages.ApnSetup(old(State()), junk)
    {
      var s := new char[30];
      junk := s[..];
      var ok := Command(CmdCops, AnswerNone);
      ok := SearchFor(PatCops, 5, s, 30, Relax.Code());
      if ok {
        SetStatus(status.(provider := Carrier(s[..])));
        ok := SearchForP(PatOk, 5, null, 0, Relax.Code());
      } else {
        SetStatus(status.(provider := 0));
        SetErrors(errors.(apn := true));
      }
    }

    /** `gprs_wireless_connection`. */
    method GprsWireless()
      modifies this`errors, usart`link
      ensures usart.suspended == old(usart.suspended)
      ensures State() == Stages.GprsWireless(old(State()))
    {
      var ok := Command(CmdCiicr, AnswerOk);
      if !ok {
        SetErrors(errors.(tcpip := true));
      }
    }

    /** The `switch` on the provider in `sim9_tcpip_on`. */
    method SetApn()
      modifies this`errors, usart`link
      ensures usart.suspended == old(usart.suspended)
      ensures State() == Stages.SetApn(old(State()))
    {
      match ApnCommand(status.provider)
      case Some(cmd) =>
        var ok := Command(cmd, AnswerOk);
      case None =>
        SetErrors(errors.(apn := true));
    }

    /** The TCP configuration and the transparent mode of `sim9_tcpip_on`. */
    method TcpipMode()
      modifies usart`link
      ensures status == old(status) && errors == old(errors)
      ensures imei[..] == old(imei[..]) && usart.suspended == old(usart.suspended)
      ensures State() == Stages.TcpipMode(old(State()))
    {
      var ok := Command(CmdCipccfg, AnswerOk);
      if status.tsMode {
        ok := Command(CmdCipMode1, AnswerOk);
      } else {
        ok := Command(CmdCipMode0, AnswerOk);
      }
    }

    /** `sim9_tcpip_on` up to the access point; `junk` is what the buffer
        of `apn_setup` held, when it runs. */
    method TcpipSetup() returns (ghost junk: seq<char>)
      modifies this`status, this`errors, usart`link
      ensures |junk| == 30
      ensures usart.suspended == old(usart.suspended)
      ensures State() == Stages.TcpipSetup(old(State()), junk)
    {
      SetErrors(errors.(tcpip := false));
      TcpipMode();
      GprsConnect();
      if status.gprs {
        junk := ApnSetup();
      } else {
        junk := Zeros(30);
      }
      SetApn();
    }

    /** `sim9_tcpip_on`. */
    method TcpipOn() returns (ghost junk: seq<char>)
      modifies this`status, this`errors, usart`link
      ensures |junk| == 30
      ensures usart.suspended == old(usart.suspended)
      ensures State() == Stages.TcpipOn(old(State()), junk)
    {
      junk := TcpipSetup();
      if errors.All() == 0 {
        GprsWireless();
      }
      if errors.All() == 0 {
        Cifsr();
      }
    }

    /** The IP query of `sim9_tcpip_on` into a zeroed 30-byte buffer. */
    method Cifsr()
      modifies usart`link
      ensures status == old(status) && errors == old(errors)
      ensures imei[..] == old(imei[..]) && usart.suspended == old(usart.suspended)
      ensures usart.link == Protocol.SendAtP(old(usart.link), status.echo, CmdCifsr, Zeros(30), 30, AnswerMsg.Code()).link
    {
      var s := new char[30](_ => NUL);
      assert s[..] == Zeros(30);
      var ok := SendAtP(CmdCifsr, s, 30, AnswerMsg.Code());
    }

    // -------------------------------------------------------------------
    // sim9_wait4char

    /** `sim9_wait4char(c, timeout)`: up to `timeout` one-byte reads, a
        second apart, until `c` comes. */
    method Wait4Char(c: char, timeout: u8) returns (found: bool)
      modifies usart`link
      ensures status == old(status) && errors == old(errors)
      ensures imei[..] == old(imei[..]) && usart.suspended == old(usart.suspended)
      ensures var d := WaitLoop(old(usart.link), c, timeout);
        found == d.ok && usart.link == d.link
    {
      ghost var d0 := WaitLoop(usart.link, c, timeout);
      ghost var st, er, im, su := status, errors, imei[..], usart.suspended;
      var left := timeout;
      while left > 0
        invariant status == st && errors == er && imei[..] == im && usart.suspended == su
        invariant WaitLoop(usart.link, c, left) == d0
        decreases left
      {
        var got, ch := usart.Get();
        if got && ch == c {
          return true;
        }
        Delay();
        left := left - 1;
      }
      return false;
    }
  }
}
