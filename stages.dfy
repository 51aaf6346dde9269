/** The driver's higher stages — the escape sequencer, the bring-up of
    `sim9_on` with its PIN, identity and registration checks, power-down,
    the GPRS bearer stages and `sim9_wait4char` — as functions from one
    session state to the next. Each retry loop is a recursive function
    over the link and the one flag the loop tests; the stage function
    around it writes the outcome back into the session record. The
    session class implements every stage in place and is proved equal to
    these functions. */
module Stages {
  import opened Sim9Header
  import opened CStrings
  import opened Transport
  import opened Protocol

  /** The session record the stages update, with the serial link. */
  datatype Sim = Sim(status: Status, errors: Errors, imei: seq<char>, link: Link)

  /** The verdict of a command and the link it leaves. */
  datatype Done = Done(ok: bool, link: Link)

  /** The outcome of a retry loop: the link it leaves, the flag it tests
      (and, for the GPRS polls, the error flag it may set), how many
      rounds it ran, and its buffer. */
  datatype Looped = Looped(link: Link, flag: bool, err: bool, tries: nat, buf: seq<char>)

  // ---------------------------------------------------------------------
  // The commands the stages send and the answers they look for, as the
  // program-memory strings of the source.

  const CmdAt: Text := "AT"
  const CmdIpr: Text := "AT+IPR=9600"
  const CmdCiurc: Text := "AT+CIURC=1"
  const CmdFactory: Text := "AT&F&C0&D0"
  const CmdEchoOn: Text := "ATE1"
  const CmdEchoOff: Text := "ATE0"
  const CmdSleds1: Text := "AT+SLEDS=1,53,790"
  const CmdSleds2: Text := "AT+SLEDS=2,53,2990"
  const CmdSleds3: Text := "AT+SLEDS=3,53,287"
  const CmdNetLight: Text := "AT+CNETLIGHT=1"
  const CmdCgsn: Text := "AT+CGSN"
  const CmdCpin: Text := "AT+CPIN?"
  const CmdCgreg: Text := "AT+CGREG?"
  const CmdPowerDown: Text := "AT+CPOWD=1\r"
  const CmdCgatt: Text := "AT+CGATT?"
  const CmdAttach: Text := "AT+CGATT=1"
  const CmdDetach: Text := "AT+CGATT=0"
  const CmdCops: Text := "AT+COPS?"
  const CmdCiicr: Text := "AT+CIICR"
  const CmdCipccfg: Text := "AT+CIPCCFG?"
  const CmdCipMode1: Text := "AT+CIPMODE=1"
  const CmdCipMode0: Text := "AT+CIPMODE=0"
  const CmdCifsr: Text := "AT+CIFSR"
  const CmdApnInternet: Text := "AT+CSTT=\"internet\""
  const CmdApnVodafone: Text := "AT+CSTT=\"web.omnitel.it\""
  const CmdApnTim: Text := "AT+CSTT=\"ibox.tim.it\""
  const EscapeSeq: Text := "+++"
  const CrLf: Text := "\r\n"
  const PatCallReady: Text := "Call Ready"
  const PatPowerDown: Text := "NORMAL POWER DOWN"
  const PatCops: Text := "+COPS:"
  const PatOk: Text := "OK"
  const PatCpinReady: Text := "+CPIN: READY"
  const PatCgreg: Text := "+CGREG: 0,1"
  const PatCgatt: Text := "+CGATT: 1"
  const PatTim: Text := "I TIM"
  const PatVodafone: Text := "odafo"

  /** How many strings `n` calls of `sim9_send_at` print: the command,
      CR and, in echo mode, LF each. */
  function Printed(n: nat, echo: bool): nat
  {
    if echo then 3 * n else 2 * n
  }

  /** What one `sim9_send_at_P(cmd, …)` prints. */
  function CommandText(l: Link, echo: bool, cmd: Text): seq<Text>
  {
    [Truncate(cmd, l.rxSize), CR] + (if echo then [LF] else [])
  }

  /** `sim9_send_at_P(cmd, NULL, 0, shape)` for the shapes that read no
      message. */
  function Command(l: Link, echo: bool, cmd: Text, shape: AnswerShape): (d: Done)
    requires shape == AnswerNone || shape == AnswerOk
    ensures d.link.tx == l.tx + CommandText(l, echo, cmd)
    ensures |d.link.tx| == |l.tx| + Printed(1, echo)
    ensures d.link.rxSize == l.rxSize && d.link.raw == l.raw
  {
    var a := SendAtP(l, echo, cmd, [], 0, shape.Code());
    Done(a.ok, a.link)
  }

  /** `sim9_send_at_P(cmd, buf, size, SENDAT_TYPE_MSGOK)`; the message read
      lands in `buf`. */
  function Query(l: Link, echo: bool, cmd: Text, buf: seq<char>, size: u8): (a: Answer)
    requires size <= |buf|
    ensures |a.msg| == |buf|
    ensures a.link.tx == l.tx + CommandText(l, echo, cmd)
    ensures |a.link.tx| == |l.tx| + Printed(1, echo)
    ensures a.link.rxSize == l.rxSize && a.link.raw == l.raw
    ensures a.ok ==> 3 <= size && StrLen(a.msg) <= size - 2
  {
    SendAtP(l, echo, cmd, buf, size, AnswerMsgOk.Code())
  }

  // ---------------------------------------------------------------------
  // sim9_escape

  /** What the escape guard prints: `+++`, and with echo the CR LF that
      makes it a line. */
  function GuardText(echo: bool): seq<Text>
  {
    if echo then [EscapeSeq, CrLf] else [EscapeSeq]
  }

  /** The guarded `+++` of a round that begins connected: a second of
      silence, `+++`, half a second, then with echo the CR LF and a search
      for the echoed `+++`, without echo another second. */
  function Guard(l: Link, echo: bool): (g: Link)
    ensures g.tx == l.tx + GuardText(echo)
    ensures g.rxSize == l.rxSize && g.raw == l.raw
  {
    var l1 := Sent(Tick(l), EscapeSeq);
    var l2 := Tick(l1);
    if echo then SearchForP(Sent(l2, CrLf), EscapeSeq, 30, None, 0, Equal.Code()).link
    else Tick(l2)
  }

  /** One round of `sim9_escape`: the guard when connected, then the probe
      `AT`; the round prints `+++` exactly when it begins connected. */
  function EscapeRound(l: Link, echo: bool, connected: bool): (d: Done)
    ensures d.link.tx == l.tx + (if connected then GuardText(echo) else [])
      + CommandText(l, echo, CmdAt)
    ensures d.link.rxSize == l.rxSize && d.link.raw == l.raw
  {
    var g := if connected then Guard(l, echo) else l;
    Command(g, echo, CmdAt, AnswerOk)
  }

  /** The `while (retry--)` of `sim9_escape`, `flag` being
      `status.connected`: a round whose probe answers clears it and ends
      the loop; a round whose probe fails sets it and goes on. */
  function EscapeLoop(l: Link, echo: bool, connected: bool, retry: nat): (r: Looped)
    ensures r.tries <= retry && (retry > 0 ==> r.tries >= 1)
    ensures retry == 0 ==> r.link == l && r.flag == connected && r.tries == 0
    ensures retry > 0 && r.flag ==> r.tries == retry
    ensures r.link.rxSize == l.rxSize && r.link.raw == l.raw
    decreases retry
  {
    if retry == 0 then Looped(l, connected, false, 0, [])
    else
      var d := EscapeRound(l, echo, connected);
      if d.ok then Looped(d.link, false, false, 1, [])
      else
        var r := EscapeLoop(d.link, echo, true, retry - 1);
        r.(tries := r.tries + 1)
  }

  /** The first `n` probes, made from `l`, all fail. */
  predicate ProbesFail(l: Link, echo: bool, connected: bool, n: nat)
    decreases n
  {
    n == 0 || (var d := EscapeRound(l, echo, connected); !d.ok && ProbesFail(d.link, echo, true, n - 1))
  }

  /** The loop leaves the session connected exactly when every one of its
      probes fails. */
  lemma {:induction false} EscapeStaysConnected(l: Link, echo: bool, connected: bool, retry: nat)
    requires retry > 0
    ensures EscapeLoop(l, echo, connected, retry).flag <==> ProbesFail(l, echo, connected, retry)
    decreases retry
  {
    var d := EscapeRound(l, echo, connected);
    if !d.ok && retry > 1 {
      EscapeStaysConnected(d.link, echo, true, retry - 1);
    }
  }

  /** `sim9_escape`: at most three rounds, then `errors.esc` records
      whether the session is still connected. */
  function Escape(s: Sim): (t: Sim)
    ensures t.errors.esc == t.status.connected
    ensures t.status == s.status.(connected := t.status.connected)
    ensures t.errors == s.errors.(esc := t.errors.esc)
    ensures t.imei == s.imei
  {
    var r := EscapeLoop(s.link, s.status.echo, s.status.connected, 3);
    s.(status := s.status.(connected := r.flag), errors := s.errors.(esc := r.flag), link := r.link)
  }

  /** `sim9_escape` makes one to three probes, three whenever it leaves
      the session connected. */
  lemma EscapeProbes(s: Sim)
    ensures var r := EscapeLoop(s.link, s.status.echo, s.status.connected, 3);
      1 <= r.tries <= 3 && (Escape(s).status.connected ==> r.tries == 3)
  {
  }

  /** A connected session whose first probe answers sees exactly one
      `+++` and one `AT` and ends disconnected without an escape error. */
  lemma EscapeFirstProbe(s: Sim)
    requires s.status.connected && EscapeRound(s.link, s.status.echo, true).ok
    ensures var t := Escape(s);
      t.link.tx == s.link.tx + GuardText(s.status.echo) + CommandText(s.link, s.status.echo, CmdAt)
      && !t.status.connected && !t.errors.esc
  {
  }

  // ---------------------------------------------------------------------
  // imei

  /** The `while (errors.imei && retry--)` of `imei`, `flag` being
      `errors.imei`: each round asks for the identity into the session's
      buffer and accepts it when the command succeeds with more than 14
      characters. */
  function ImeiLoop(l: Link, echo: bool, buf: seq<char>, missing: bool, retry: nat): (r: Looped)
    requires |buf| == ImeiSize
    ensures |r.buf| == ImeiSize
    ensures r.tries <= retry
    ensures !missing ==> r == Looped(l, false, false, 0, buf)
    ensures missing && !r.flag ==> 15 <= StrLen(r.buf) <= ImeiSize - 2
    ensures r.flag ==> r.tries == retry
    ensures |r.link.tx| == |l.tx| + Printed(r.tries, echo)
    ensures r.link.rxSize == l.rxSize && r.link.raw == l.raw
    decreases retry
  {
    if !missing || retry == 0 then Looped(l, missing, false, 0, buf)
    else
      var a := Query(l, echo, CmdCgsn, buf, ImeiSize as u8);
      var r := ImeiLoop(a.link, echo, a.msg, !(a.ok && StrLen(a.msg) > 14), retry - 1);
      r.(tries := r.tries + 1)
  }

  /** An identity query's answer is accepted: the command succeeded and
      the string read is longer than 14 characters. */
  predicate ImeiAccepted(a: Answer)
  {
    a.ok && StrLen(a.msg) > 14
  }

  /** The first `n` identity queries, made from `l`, are all refused. */
  predicate ImeiRefused(l: Link, echo: bool, buf: seq<char>, n: nat)
    requires |buf| == ImeiSize
    decreases n
  {
    n == 0 || (var a := Query(l, echo, CmdCgsn, buf, ImeiSize as u8);
      !ImeiAccepted(a) && ImeiRefused(a.link, echo, a.msg, n - 1))
  }

  /** The identity is still missing after the loop exactly when every
      query was refused; an accepted first answer ends the loop at once. */
  lemma {:induction false} ImeiLoopIff(l: Link, echo: bool, buf: seq<char>, retry: nat)
    requires |buf| == ImeiSize
    ensures ImeiLoop(l, echo, buf, true, retry).flag <==> ImeiRefused(l, echo, buf, retry)
    ensures var a := Query(l, echo, CmdCgsn, buf, ImeiSize as u8);
      retry > 0 && ImeiAccepted(a) ==> ImeiLoop(l, echo, buf, true, retry) == Looped(a.link, false, false, 1, a.msg)
    decreases retry
  {
    if retry > 0 {
      var a := Query(l, echo, CmdCgsn, buf, ImeiSize as u8);
      if !ImeiAccepted(a) {
        ImeiLoopIff(a.link, echo, a.msg, retry - 1);
      }
    }
  }

  /** `imei`: empty the identity, flag it missing, drop stale lines, then
      up to ten attempts. */
  function Imei(s: Sim): (t: Sim)
    requires |s.imei| == ImeiSize
    ensures |t.imei| == ImeiSize
    ensures t.status == s.status
    ensures t.errors == s.errors.(imei := t.errors.imei)
    ensures !t.errors.imei ==> 15 <= StrLen(t.imei) <= 16
    ensures t.errors.imei <==> ImeiRefused(Cleared(s.link), s.status.echo, s.imei[0 := NUL], 10)
  {
    ImeiLoopIff(Cleared(s.link), s.status.echo, s.imei[0 := NUL], 10);
    var r := ImeiLoop(Cleared(s.link), s.status.echo, s.imei[0 := NUL], true, 10);
    s.(imei := r.buf, errors := s.errors.(imei := r.flag), link := r.link)
  }

  /** `imei` makes one to ten attempts, ten when it fails, and each one
      prints one command. */
  lemma ImeiAttempts(s: Sim)
    requires |s.imei| == ImeiSize
    ensures var r := ImeiLoop(Cleared(s.link), s.status.echo, s.imei[0 := NUL], true, 10);
      1 <= r.tries <= 10 && (Imei(s).errors.imei ==> r.tries == 10)
      && |Imei(s).link.tx| == |s.link.tx| + Printed(r.tries, s.status.echo)
  {
  }

  // ---------------------------------------------------------------------
  // pin_check

  /** `pin_check`, with its 20-byte buffer. */
  function PinCheck(s: Sim): (t: Sim)
    ensures t.status == s.status && t.imei == s.imei
    ensures t.errors == s.errors.(pin := t.errors.pin)
  {
    var a := Query(s.link, s.status.echo, CmdCpin, Zeros(20), 20);
    s.(errors := s.errors.(pin := !(a.ok && MemEq(a.msg, 0, PatCpinReady))), link := a.link)
  }

  /** The PIN check passes exactly when the query succeeds and its answer
      line begins with `+CPIN: READY`. */
  lemma PinCheckIff(s: Sim)
    ensures var a := Query(s.link, s.status.echo, CmdCpin, Zeros(20), 20);
      !PinCheck(s).errors.pin <==> a.ok && PatCpinReady <= CStr(a.msg)
  {
    var a := Query(s.link, s.status.echo, CmdCpin, Zeros(20), 20);
    MemEqAtStart(a.msg, PatCpinReady);
  }

  // ---------------------------------------------------------------------
  // network_registered

  /** The `while (errors.netreg && retry--)` of `network_registered`,
      `flag` being `errors.netreg`: wait, query the registration into the
      one buffer the function allocated, and accept the home-network
      answer `+CGREG: 0,1`. */
  function NetRegLoop(l: Link, echo: bool, buf: seq<char>, missing: bool, retry: nat): (r: Looped)
    requires |buf| == 20
    ensures |r.buf| == 20
    ensures r.tries <= retry
    ensures !missing ==> r == Looped(l, false, false, 0, buf)
    ensures missing && !r.flag ==> PatCgreg <= CStr(r.buf)
    ensures r.flag ==> r.tries == retry
    ensures |r.link.tx| == |l.tx| + Printed(r.tries, echo)
    ensures r.link.rxSize == l.rxSize && r.link.raw == l.raw
    decreases retry
  {
    if !missing || retry == 0 then Looped(l, missing, false, 0, buf)
    else
      var a := Query(Tick(l), echo, CmdCgreg, buf, 20);
      MemEqAtStart(a.msg, PatCgreg);
      var r := NetRegLoop(a.link, echo, a.msg, !(a.ok && MemEq(a.msg, 0, PatCgreg)), retry - 1);
      r.(tries := r.tries + 1)
  }

  /** A registration answer is accepted: the command succeeded and the
      string read begins with the home-network `+CGREG: 0,1`. */
  predicate Registered(a: Answer)
  {
    a.ok && PatCgreg <= CStr(a.msg)
  }

  /** The first `n` registration queries, each after a wait, made from
      `l`, are all refused. */
  predicate NetRegRefused(l: Link, echo: bool, buf: seq<char>, n: nat)
    requires |buf| == 20
    decreases n
  {
    n == 0 || (var a := Query(Tick(l), echo, CmdCgreg, buf, 20);
      !Registered(a) && NetRegRefused(a.link, echo, a.msg, n - 1))
  }

  /** The registration stays missing exactly when every query was
      refused; an accepted first answer ends the loop at once. */
  lemma {:induction false} NetRegLoopIff(l: Link, echo: bool, buf: seq<char>, retry: nat)
    requires |buf| == 20
    ensures NetRegLoop(l, echo, buf, true, retry).flag <==> NetRegRefused(l, echo, buf, retry)
    ensures var a := Query(Tick(l), echo, CmdCgreg, buf, 20);
      retry > 0 && Registered(a) ==> NetRegLoop(l, echo, buf, true, retry) == Looped(a.link, false, false, 1, a.msg)
    decreases retry
  {
    if retry > 0 {
      var a := Query(Tick(l), echo, CmdCgreg, buf, 20);
      MemEqAtStart(a.msg, PatCgreg);
      if !Registered(a) {
        NetRegLoopIff(a.link, echo, a.msg, retry - 1);
      }
    }
  }

  /** `network_registered`: up to five attempts. */
  function NetworkRegistered(s: Sim): (t: Sim)
    ensures t.status == s.status && t.imei == s.imei
    ensures t.errors == s.errors.(netReg := t.errors.netReg)
    ensures t.errors.netReg <==> NetRegRefused(s.link, s.status.echo, Zeros(20), 5)
  {
    NetRegLoopIff(s.link, s.status.echo, Zeros(20), 5);
    var r := NetRegLoop(s.link, s.status.echo, Zeros(20), true, 5);
    s.(errors := s.errors.(netReg := r.flag), link := r.link)
  }

  /** `network_registered` makes one to five attempts, five when it
      fails, and succeeds only on a home-network answer. */
  lemma NetworkRegisteredAttempts(s: Sim)
    ensures var r := NetRegLoop(s.link, s.status.echo, Zeros(20), true, 5);
      1 <= r.tries <= 5 && (NetworkRegistered(s).errors.netReg <==> r.flag)
      && (r.flag ==> r.tries == 5) && (!r.flag ==> PatCgreg <= CStr(r.buf))
  {
  }

  // ---------------------------------------------------------------------
  // sim9_on

  /** The start of `sim9_on`: the status and error words cleared, the
      power-up waits of one, one and four seconds, stale input dropped. */
  function PowerUp(s: Sim): (t: Sim)
    ensures t.imei == s.imei && t.status == StatusCleared && t.errors == NoErrors
  {
    s.(status := StatusCleared, errors := NoErrors, link := Cleared(Tick(Tick(Tick(s.link)))))
  }

  /** The configuration of `sim9_on`: `AT`, the speed and the URC
      presentation, the wait for `Call Ready`, stale input dropped, and
      the factory defaults, whose failure sets `errors.init`. */
  function Configure(s: Sim): (t: Sim)
    ensures t.imei == s.imei && t.status == s.status
    ensures t.errors == s.errors.(init := t.errors.init)
    ensures var f := Command(ResetLink(s), s.status.echo, CmdFactory, AnswerOk);
      (t.errors.init <==> s.errors.init || !f.ok) && t.link == f.link
  {
    var f := Command(ResetLink(s), s.status.echo, CmdFactory, AnswerOk);
    s.(errors := if f.ok then s.errors else s.errors.(init := true), link := f.link)
  }

  /** The link on which `sim9_on` restores the factory defaults: after
      `AT`, the speed and the URC presentation, the wait for `Call Ready`
      and the dropping of stale input. */
  function ResetLink(s: Sim): (l: Link)
    ensures l.tx == s.link.tx + BatchText(s.link, s.status.echo, [CmdAt, CmdIpr, CmdCiurc])
    ensures l.rxSize == s.link.rxSize && l.rx == []
  {
    var l3 := Batch(s.link, s.status.echo, [CmdAt, CmdIpr, CmdCiurc]);
    Cleared(SearchForP(l3, PatCallReady, 60, None, 0, Equal.Code()).link)
  }

  /** The end of the configuration: echo chosen, then the net light. */
  function Lights(s: Sim): (t: Sim)
    ensures t.imei == s.imei && t.errors == s.errors
    ensures t.status == s.status.(echo := EchoEnabled)
    ensures t.link.tx == s.link.tx + BatchText(s.link, EchoEnabled,
      [EchoCommand(EchoEnabled), CmdSleds1, CmdSleds2, CmdSleds3, CmdNetLight])
  {
    var echo := EchoEnabled;
    s.(status := s.status.(echo := echo),
       link := Batch(s.link, echo, [EchoCommand(echo), CmdSleds1, CmdSleds2, CmdSleds3, CmdNetLight]))
  }

  /** `sim9_on` before the checks. The configuration runs with the echo
      flag just cleared, so its commands expect no echo. */
  function OnSetup(s: Sim): (t: Sim)
    ensures t.imei == s.imei
    ensures t.status == StatusCleared.(echo := EchoEnabled)
    ensures t.errors == NoErrors.(init := t.errors.init)
    ensures t.errors.init <==> !Command(ResetLink(PowerUp(s)), StatusCleared.echo, CmdFactory, AnswerOk).ok
  {
    Lights(Configure(PowerUp(s)))
  }

  /** Commands sent one after another for their effect alone, their
      answers ignored, as `sim9_on` configures the modem. */
  function Batch(l: Link, echo: bool, cmds: seq<Text>): (r: Link)
    ensures r.tx == l.tx + BatchText(l, echo, cmds)
    ensures |r.tx| == |l.tx| + Printed(|cmds|, echo)
    ensures r.rxSize == l.rxSize && r.raw == l.raw
    decreases |cmds|
  {
    if cmds == [] then l
    else
      var d := Command(l, echo, cmds[0], AnswerOk);
      BatchTextSize(d.link, l, echo, cmds[1..]);
      Batch(d.link, echo, cmds[1..])
  }

  /** What running `cmds` one after another prints: each command's text,
      in order. */
  function BatchText(l: Link, echo: bool, cmds: seq<Text>): (t: seq<Text>)
    ensures |t| == Printed(|cmds|, echo)
    decreases |cmds|
  {
    if cmds == [] then [] else CommandText(l, echo, cmds[0]) + BatchText(l, echo, cmds[1..])
  }

  /** Only the receive buffer's size, which cuts the commands, matters. */
  lemma {:induction false} BatchTextSize(l1: Link, l2: Link, echo: bool, cmds: seq<Text>)
    requires l1.rxSize == l2.rxSize
    ensures BatchText(l1, echo, cmds) == BatchText(l2, echo, cmds)
    decreases |cmds|
  {
    if cmds != [] {
      BatchTextSize(l1, l2, echo, cmds[1..]);
    }
  }

  /** `ATE1` or `ATE0`, as echo is wanted or not. */
  function EchoCommand(echo: bool): Text
  {
    if echo then CmdEchoOn else CmdEchoOff
  }

  /** The checks of `sim9_on`, each run only while `errors.all` is zero,
      with five seconds before the registration check. */
  function OnChecks(s: Sim): (t: Sim)
    requires |s.imei| == ImeiSize
    ensures |t.imei| == ImeiSize
    ensures t.status == s.status
  {
    var p := if s.errors.All() == 0 then PinCheck(s) else s;
    var q := if p.errors.All() == 0 then Imei(p) else p;
    if q.errors.All() == 0 then NetworkRegistered(q.(link := Tick(q.link))) else q
  }

  /** `sim9_on` after the power pulse. */
  function On(s: Sim): (t: Sim)
    requires |s.imei| == ImeiSize
    ensures |t.imei| == ImeiSize
    ensures t.status == StatusCleared.(echo := EchoEnabled)
  {
    OnChecks(OnSetup(s))
  }

  /** When restoring the factory defaults fails, none of the checks runs. */
  lemma OnStopsOnInitError(s: Sim)
    requires |s.imei| == ImeiSize
    ensures OnSetup(s).errors.init ==> On(s) == OnSetup(s)
  {
    ErrorsAllZero(OnSetup(s).errors);
  }

  /** A failed PIN check skips the identity and registration checks. */
  lemma OnStopsOnPinError(s: Sim)
    requires |s.imei| == ImeiSize
    ensures var p := PinCheck(OnSetup(s));
      !OnSetup(s).errors.init && p.errors.pin ==> On(s) == p
  {
    var u := OnSetup(s);
    ErrorsAllZero(u.errors);
    ErrorsAllZero(PinCheck(u).errors);
  }

  /** A missing identity skips the registration check. */
  lemma OnStopsOnImeiError(s: Sim)
    requires |s.imei| == ImeiSize
    ensures var p := PinCheck(OnSetup(s)); var q := Imei(p);
      !OnSetup(s).errors.init && !p.errors.pin && q.errors.imei ==> On(s) == q
  {
    var u := OnSetup(s);
    ErrorsAllZero(u.errors);
    var p := PinCheck(u);
    ErrorsAllZero(p.errors);
    ErrorsAllZero(Imei(p).errors);
  }

  /** A bring-up without an error has run every check and passed it: the
      factory reset and the PIN check succeeded and an identity of 15 or
      16 characters is stored. */
  lemma OnSuccess(s: Sim)
    requires |s.imei| == ImeiSize
    ensures var u := OnSetup(s); var t := On(s);
      t.errors == NoErrors ==>
        !u.errors.init && !PinCheck(u).errors.pin && 15 <= StrLen(t.imei) <= 16
  {
    var u := OnSetup(s);
    ErrorsAllZero(u.errors);
    var p := PinCheck(u);
    ErrorsAllZero(p.errors);
    var q := Imei(p);
    ErrorsAllZero(q.errors);
  }

  /** No stage writes the unused error bits, which `sim9_on` clears: so
      after the bring-up `errors.all` is zero exactly when every named
      error flag is clear. */
  lemma OnUnusedClear(s: Sim)
    requires |s.imei| == ImeiSize
    ensures On(s).errors.unused == 0
    ensures On(s).errors.All() == 0 <==> !On(s).errors.AnyNamed()
  {
    ErrorsAllZero(On(s).errors);
  }

  // ---------------------------------------------------------------------
  // sim9_off

  /** `sim9_off`: ask for power-down and wait for the modem to report it. */
  function Off(s: Sim): (t: Sim)
    ensures t.imei == s.imei
    ensures t.link.tx == s.link.tx + [CmdPowerDown]
  {
    var f := SearchForP(Sent(s.link, CmdPowerDown), PatPowerDown, 5, None, 0, Relax.Code());
    if f.ok then s.(status := s.status.(ready := false), link := f.link)
    else s.(errors := s.errors.(off := true), link := f.link)
  }

  /** Power-down either clears `ready` or sets `errors.off`, as the modem's
      report arrives or not; nothing else changes. */
  lemma OffOutcome(s: Sim)
    ensures var f := SearchForP(Sent(s.link, CmdPowerDown), PatPowerDown, 5, None, 0, Relax.Code());
      var t := Off(s);
      (f.ok ==> t.status == s.status.(ready := false) && t.errors == s.errors)
      && (!f.ok ==> t.status == s.status && t.errors == s.errors.(off := true))
      && t.link == f.link
  {
  }

  // ---------------------------------------------------------------------
  // check_cgatt, gprs_connect, gprs_disconnect

  /** `check_cgatt` on the link: `flag` is `status.gprs`, `err` is
      `errors.gprs`; a failed query sets the error and leaves the status. */
  function Cgatt(l: Link, echo: bool, gprs: bool, err: bool): (r: Looped)
    ensures |r.link.tx| == |l.tx| + Printed(1, echo) && r.tries == 1
    ensures r.link.rxSize == l.rxSize && r.link.raw == l.raw
  {
    var a := Query(l, echo, CmdCgatt, Zeros(15), 15);
    if a.ok then Looped(a.link, MemEq(a.msg, 0, PatCgatt), err, 1, a.msg)
    else Looped(a.link, gprs, true, 1, a.msg)
  }

  /** A successful query decides the attachment from the answer's start;
      a failed one only flags the error. */
  lemma CgattIff(l: Link, echo: bool, gprs: bool, err: bool)
    ensures var a := Query(l, echo, CmdCgatt, Zeros(15), 15);
      var r := Cgatt(l, echo, gprs, err);
      (a.ok ==> (r.flag <==> PatCgatt <= CStr(a.msg)) && r.err == err)
      && (!a.ok ==> r.flag == gprs && r.err)
  {
    var a := Query(l, echo, CmdCgatt, Zeros(15), 15);
    MemEqAtStart(a.msg, PatCgatt);
  }

  /** `check_cgatt`. */
  function CheckCgatt(s: Sim): (t: Sim)
    ensures t.imei == s.imei
    ensures t.status == s.status.(gprs := t.status.gprs)
    ensures t.errors == s.errors.(gprs := t.errors.gprs)
  {
    var r := Cgatt(s.link, s.status.echo, s.status.gprs, s.errors.gprs);
    s.(status := s.status.(gprs := r.flag), errors := s.errors.(gprs := r.err), link := r.link)
  }

  /** The do-while of `gprs_connect` (`want` true) and `gprs_disconnect`
      (`want` false): check the attachment until it is `want`, at most
      `retry + 1` times. */
  function GprsPoll(l: Link, echo: bool, gprs: bool, err: bool, want: bool, retry: nat): (r: Looped)
    ensures 1 <= r.tries <= retry + 1
    ensures r.flag != want ==> r.tries == retry + 1
    ensures err ==> r.err
    ensures var c := Cgatt(l, echo, gprs, err); c.flag == want ==> r == c
    ensures |r.link.tx| == |l.tx| + Printed(r.tries, echo)
    ensures r.link.rxSize == l.rxSize && r.link.raw == l.raw
    decreases retry
  {
    var c := Cgatt(l, echo, gprs, err);
    if c.flag == want || retry == 0 then c
    else
      var r := GprsPoll(c.link, echo, c.flag, c.err, want, retry - 1);
      r.(tries := r.tries + 1)
  }

  /** None of the `retry + 1` checks the poll may make from `l` reports
      the state `want`. The error flag never decides a check, so it is
      left clear here. */
  predicate CgattMisses(l: Link, echo: bool, gprs: bool, want: bool, retry: nat)
    decreases retry
  {
    var c := Cgatt(l, echo, gprs, false);
    c.flag != want && (retry == 0 || CgattMisses(c.link, echo, c.flag, want, retry - 1))
  }

  /** Every check the poll makes from `l`, up to the first that reports
      `want`, has its query answered. */
  predicate CgattAnswered(l: Link, echo: bool, gprs: bool, want: bool, retry: nat)
    decreases retry
  {
    var c := Cgatt(l, echo, gprs, false);
    !c.err && (c.flag == want || retry == 0 || CgattAnswered(c.link, echo, c.flag, want, retry - 1))
  }

  /** One check does not depend on the error flag it is handed, but for
      passing a set one on. */
  lemma CgattErr(l: Link, echo: bool, gprs: bool, err: bool)
    ensures var c, d := Cgatt(l, echo, gprs, err), Cgatt(l, echo, gprs, false);
      c.flag == d.flag && c.link == d.link && c.err == (err || d.err)
  {
  }

  /** The poll ends in the state `want` unless every check it made missed
      it, and it ends with `errors.gprs` set exactly when the flag was set
      before or one of its checks' queries failed. */
  lemma {:induction false} GprsPollOutcome(l: Link, echo: bool, gprs: bool, err: bool, want: bool, retry: nat)
    ensures var r := GprsPoll(l, echo, gprs, err, want, retry);
      (r.flag != want <==> CgattMisses(l, echo, gprs, want, retry))
      && (r.err <==> err || !CgattAnswered(l, echo, gprs, want, retry))
    decreases retry
  {
    var c := Cgatt(l, echo, gprs, err);
    CgattErr(l, echo, gprs, err);
    if c.flag != want && retry != 0 {
      GprsPollOutcome(c.link, echo, c.flag, c.err, want, retry - 1);
    }
  }

  /** Attach (`want`) or detach the GPRS network with `cmd`: clear
      `errors.gprs`, then poll only if the command succeeds. */
  function GprsSwitch(l: Link, echo: bool, gprs: bool, cmd: Text, want: bool): (r: Looped)
    ensures r.tries <= 6
    ensures |r.link.tx| == |l.tx| + Printed(r.tries + 1, echo)
    ensures var d := Command(l, echo, cmd, AnswerOk);
      (d.ok ==> (r.flag != want <==> CgattMisses(d.link, echo, gprs, want, 5)))
      && (!d.ok ==> r.flag == gprs)
      && (r.err <==> !d.ok || !CgattAnswered(d.link, echo, gprs, want, 5))
  {
    var d := Command(l, echo, cmd, AnswerOk);
    GprsPollOutcome(d.link, echo, gprs, false, want, 5);
    if d.ok then GprsPoll(d.link, echo, gprs, false, want, 5)
    else Looped(d.link, gprs, true, 0, [])
  }

  /** When the attach or detach command fails, `check_cgatt` is never
      called and `errors.gprs` is set; otherwise it is called one to six
      times, six whenever the wanted state was not reached. */
  lemma GprsSwitchPolls(l: Link, echo: bool, gprs: bool, cmd: Text, want: bool)
    ensures var d := Command(l, echo, cmd, AnswerOk);
      var r := GprsSwitch(l, echo, gprs, cmd, want);
      (!d.ok ==> r.tries == 0 && r.err && r.flag == gprs)
      && (d.ok ==> 1 <= r.tries <= 6 && (r.flag != want ==> r.tries == 6))
  {
  }

  /** `gprs_connect`. */
  function GprsConnect(s: Sim): (t: Sim)
    ensures t.imei == s.imei
    ensures t.status == s.status.(gprs := t.status.gprs)
    ensures t.errors == s.errors.(gprs := t.errors.gprs)
  {
    var r := GprsSwitch(s.link, s.status.echo, s.status.gprs, CmdAttach, true);
    s.(status := s.status.(gprs := r.flag), errors := s.errors.(gprs := r.err), link := r.link)
  }

  /** `GprsConnect`'s outcome. */
  lemma GprsConnectOutcome(s: Sim)
    ensures var t := GprsConnect(s); var d := Command(s.link, s.status.echo, CmdAttach, AnswerOk);
      (d.ok ==> (t.status.gprs <==> !CgattMisses(d.link, s.status.echo, s.status.gprs, true, 5)))
      && (!d.ok ==> t.status.gprs == s.status.gprs)
      && (t.errors.gprs <==> !d.ok || !CgattAnswered(d.link, s.status.echo, s.status.gprs, true, 5))
  {
  }

  /** `gprs_disconnect`. */
  function GprsDisconnect(s: Sim): (t: Sim)
    ensures t.imei == s.imei
    ensures t.status == s.status.(gprs := t.status.gprs)
    ensures t.errors == s.errors.(gprs := t.errors.gprs)
  {
    var r := GprsSwitch(s.link, s.status.echo, s.status.gprs, CmdDetach, false);
    s.(status := s.status.(gprs := r.flag), errors := s.errors.(gprs := r.err), link := r.link)
  }

  /** `GprsDisconnect`'s outcome. */
  lemma GprsDisconnectOutcome(s: Sim)
    ensures var t := GprsDisconnect(s); var d := Command(s.link, s.status.echo, CmdDetach, AnswerOk);
      (d.ok ==> (t.status.gprs <==> CgattMisses(d.link, s.status.echo, s.status.gprs, false, 5)))
      && (!d.ok ==> t.status.gprs == s.status.gprs)
      && (t.errors.gprs <==> !d.ok || !CgattAnswered(d.link, s.status.echo, s.status.gprs, false, 5))
  {
  }

  // ---------------------------------------------------------------------
  // apn_setup, gprs_wireless_connection, sim9_tcpip_on

  /** The carrier named in a `+COPS:` answer, read at fixed offsets: 3 for
      TIM ("I TIM" at 12), else 2 for Vodafone ("odafo" at 13), else 1. */
  function Carrier(buf: seq<char>): (p: bv2)
    requires |buf| >= 18
    ensures p != 0
  {
    if MemEq(buf, 12, PatTim) then 3
    else if MemEq(buf, 13, PatVodafone) then 2
    else 1
  }

  /** The offsets are those of the operator name in an answer of the form
      `+COPS: <mode>,<format>,"<operator>"` with one-digit mode and
      format: the name alone decides the carrier. */
  lemma CarrierOfOperator(mode: char, format: char, name: seq<char>, rest: seq<char>)
    requires |name| >= 6
    ensures var buf := "+COPS: " + [mode, ','] + [format, ','] + "\"" + name + rest;
      (Carrier(buf) == 3 <==> name[..5] == PatTim)
      && (Carrier(buf) == 2 <==> name[..5] != PatTim && name[1..6] == PatVodafone)
      && (Carrier(buf) == 1 <==> name[..5] != PatTim && name[1..6] != PatVodafone)
  {
    var buf := "+COPS: " + [mode, ','] + [format, ','] + "\"" + name + rest;
    assert buf[12..17] == name[..5];
    assert buf[13..18] == name[1..6];
  }

  /** The comparisons are on raw bytes, so they may read past the
      received string: after a short answer `+COPS: 0` the bytes a
      previous use of the memory left at offset 12 still decide the
      carrier. */
  lemma CarrierPastString(junk: seq<char>)
    requires |junk| == 30
    ensures var buf := "+COPS: 0" + [NUL] + junk[9..12] + PatTim + junk[17..];
      |buf| == 30 && CStr(buf) == "+COPS: 0" && Carrier(buf) == 3
  {
    var buf := "+COPS: 0" + [NUL] + junk[9..12] + PatTim + junk[17..];
    assert buf[12..17] == PatTim;
    CStrUnique(buf, "+COPS: 0");
  }

  /** What `apn_setup` does with the outcome `f` of its search for the
      `+COPS:` line: with one, the provider read from it and the search
      for the closing `OK`; without one, provider 0 and `errors.apn`. */
  function ApnChoose(s: Sim, f: Found): (t: Sim)
    requires |f.buf| >= 18
    ensures t.imei == s.imei
    ensures t.status == s.status.(provider := t.status.provider)
    ensures t.status.provider != 0 <==> f.ok
    ensures f.ok ==> t.errors == s.errors && t.status.provider == Carrier(f.buf)
    ensures !f.ok ==> t.errors == s.errors.(apn := true) && t.link == f.link
  {
    if f.ok then
      var k := SearchForP(f.link, PatOk, 5, None, 0, Relax.Code());
      s.(status := s.status.(provider := Carrier(f.buf)), link := k.link)
    else s.(status := s.status.(provider := 0), errors := s.errors.(apn := true), link := f.link)
  }

  /** `apn_setup`, whose 30-byte buffer comes from `malloc` and holds
      `junk` until the search writes into it. */
  function ApnSetup(s: Sim, junk: seq<char>): (t: Sim)
    requires |junk| == 30
    ensures t.imei == s.imei
    ensures t.errors.unused == s.errors.unused
  {
    var d := Command(s.link, s.status.echo, CmdCops, AnswerNone);
    ApnChoose(s, SearchFor(d.link, PatCops, 5, Some(junk), 30, Relax.Code()))
  }

  /** A provider is chosen only from a line that holds `+COPS:`. */
  lemma ApnSetupSawCops(s: Sim, junk: seq<char>)
    requires |junk| == 30
    ensures var d := Command(s.link, s.status.echo, CmdCops, AnswerNone);
      var f := SearchFor(d.link, PatCops, 5, Some(junk), 30, Relax.Code());
      ApnSetup(s, junk).status.provider != 0 ==> f.ok && Occurs(CStr(f.buf), PatCops)
  {
  }

  /** The access-point command for a provider: 1 Internet, 2 Vodafone,
      3 TIM; provider 0 has none. */
  function ApnCommand(provider: bv2): (c: Option<Text>)
    ensures c.Some? <==> provider != 0
  {
    if provider == 1 then Some(CmdApnInternet)
    else if provider == 2 then Some(CmdApnVodafone)
    else if provider == 3 then Some(CmdApnTim)
    else None
  }

  /** The three access points are distinct, so the provider can be read
      back from the command. */
  lemma ApnCommandsDistinct(p: bv2, q: bv2)
    ensures ApnCommand(p) == ApnCommand(q) ==> p == q
  {
  }

  /** `gprs_wireless_connection`. */
  function GprsWireless(s: Sim): (t: Sim)
    ensures t.imei == s.imei && t.status == s.status
    ensures t.errors == s.errors.(tcpip := t.errors.tcpip)
    ensures var d := Command(s.link, s.status.echo, CmdCiicr, AnswerOk);
      (t.errors.tcpip <==> s.errors.tcpip || !d.ok) && t.link == d.link
  {
    var d := Command(s.link, s.status.echo, CmdCiicr, AnswerOk);
    if d.ok then s.(link := d.link) else s.(errors := s.errors.(tcpip := true), link := d.link)
  }

  /** The TCP configuration shown and the transparent mode set as
      `status.tsmode` asks, answers ignored. */
  function TcpipMode(s: Sim): (t: Sim)
    ensures t == s.(link := t.link)
    ensures |t.link.tx| == |s.link.tx| + Printed(2, s.status.echo)
  {
    var l1 := Command(s.link, s.status.echo, CmdCipccfg, AnswerOk).link;
    var l2 := Command(l1, s.status.echo,
      if s.status.tsMode then CmdCipMode1 else CmdCipMode0, AnswerOk).link;
    s.(link := l2)
  }

  /** The part of `sim9_tcpip_on` up to the access point: `errors.tcpip`
      cleared, the mode set, GPRS attached, the APN detected when
      attached, and the access point set for a known provider
      (`errors.apn` otherwise). */
  function TcpipSetup(s: Sim, junk: seq<char>): (t: Sim)
    requires |junk| == 30
    ensures t.imei == s.imei
    ensures t.errors.unused == s.errors.unused
  {
    var g := GprsConnect(TcpipMode(s.(errors := s.errors.(tcpip := false))));
    var a := if g.status.gprs then ApnSetup(g, junk) else g;
    SetApn(a)
  }

  /** The `switch` on the provider in `sim9_tcpip_on`: set the provider's
      access point, or flag `errors.apn` when there is none. */
  function SetApn(s: Sim): (t: Sim)
    ensures t.imei == s.imei && t.status == s.status
    ensures s.status.provider != 0 ==> (t.errors == s.errors
      && t.link.tx == s.link.tx + CommandText(s.link, s.status.echo, ApnCommand(s.status.provider).value))
    ensures s.status.provider == 0 ==> t == s.(errors := s.errors.(apn := true))
  {
    match ApnCommand(s.status.provider)
    case Some(cmd) => s.(link := Command(s.link, s.status.echo, cmd, AnswerOk).link)
    case None => s.(errors := s.errors.(apn := true))
  }

  /** `sim9_tcpip_on`: after the setup, the wireless connection and the
      IP query into a 30-byte buffer, each only while `errors.all` is
      zero. */
  function TcpipOn(s: Sim, junk: seq<char>): (t: Sim)
    requires |junk| == 30
    ensures t.imei == s.imei
    ensures t.errors.unused == s.errors.unused
    ensures var a := TcpipSetup(s, junk); var w := GprsWireless(a);
      !a.errors.Any() && w.errors.tcpip ==> t == w
    ensures var a := TcpipSetup(s, junk); var w := GprsWireless(a);
      !a.errors.Any() && !w.errors.Any() ==>
        t == w.(link := SendAtP(w.link, w.status.echo, CmdCifsr, Zeros(30), 30, AnswerMsg.Code()).link)
  {
    ErrorsAllZero(TcpipSetup(s, junk).errors);
    ErrorsAllZero(GprsWireless(TcpipSetup(s, junk)).errors);
    var a := TcpipSetup(s, junk);
    var w := if a.errors.All() == 0 then GprsWireless(a) else a;
    if w.errors.All() == 0 then
      w.(link := SendAtP(w.link, w.status.echo, CmdCifsr, Zeros(30), 30, AnswerMsg.Code()).link)
    else w
  }

  /** The wireless connection and the IP query are sent only when no
      error was recorded before them. */
  lemma TcpipOnGating(s: Sim, junk: seq<char>)
    requires |junk| == 30
    ensures var a := TcpipSetup(s, junk);
      a.errors.Any() ==> TcpipOn(s, junk) == a
  {
    ErrorsAllZero(TcpipSetup(s, junk).errors);
  }

  /** Without a provider the access point is never set, the APN error is
      flagged and nothing further is sent. */
  lemma TcpipNoProvider(s: Sim, junk: seq<char>)
    requires |junk| == 30
    ensures var a := TcpipSetup(s, junk);
      a.status.provider == 0 ==> a.errors.apn && TcpipOn(s, junk) == a
  {
    var a := TcpipSetup(s, junk);
    ErrorsAllZero(a.errors);
  }

  // ---------------------------------------------------------------------
  // sim9_wait4char

  /** The `while (timeout--)` of `sim9_wait4char`: read one byte, stop
      when it is the one awaited, else wait a second. */
  function WaitLoop(l: Link, c: char, timeout: nat): (d: Done)
    ensures d.ok <==> c in l.raw[..Min(timeout, |l.raw|)]
    ensures d.link.tx == l.tx && d.link.rxSize == l.rxSize
    decreases timeout
  {
    if timeout == 0 then Done(false, l)
    else
      var b := GetByte(l);
      if b.got && b.c == c then Done(true, b.link)
      else
        var d := WaitLoop(Tick(b.link), c, timeout - 1);
        assert b.got ==> l.raw[..Min(timeout, |l.raw|)] == [l.raw[0]] + b.link.raw[..Min(timeout - 1, |b.link.raw|)];
        d
  }
}
