/** The constants and the session flag unions of the SIM900 driver header.
    Both flag words are 16-bit unions whose named bitfields are laid out from
    the least significant bit upwards (the little-endian variant; the target
    is an AVR). */
module Sim9Header {

  /** An unsigned 8-bit C integer (`uint8_t`). */
  type u8 = x: int | 0 <= x < 256

  datatype Option<T> = None | Some(value: T)

  function Min(a: int, b: int): int { if a <= b then a else b }

  /** Capacity of the identity buffer: 15 to 17 characters plus the terminator. */
  const ImeiSize: nat := 18
  const GpsLatSize: nat := 12
  const GpsLonSize: nat := 12

  /** Whether the session turns command echo on in sim9_on (SIM9_ECHO_ENA is defined). */
  const EchoEnabled: bool := true

  // ---------------------------------------------------------------------
  // Search types of sim9_searchfor and answer shapes of sim9_send_at.
  // The driver passes them as raw codes; codes outside the enumeration
  // take the `default` branches.

  datatype SearchType = Equal | Relax | Strict | EEqual | ERelax | EStrict
  {
    function Code(): (c: u8)
      ensures c < 6
    {
      match this
      case Equal => 0
      case Relax => 1
      case Strict => 2
      case EEqual => 3
      case ERelax => 4
      case EStrict => 5
    }
  }

  /** Decodes a search code; every code below 6 names exactly one search type. */
  function SearchTypeOf(c: u8): (t: Option<SearchType>)
    ensures t.Some? <==> c < 6
    ensures t.Some? ==> t.value.Code() == c
  {
    if c == 0 then Some(Equal)
    else if c == 1 then Some(Relax)
    else if c == 2 then Some(Strict)
    else if c == 3 then Some(EEqual)
    else if c == 4 then Some(ERelax)
    else if c == 5 then Some(EStrict)
    else None
  }

  lemma SearchCodesDistinct(s: SearchType, t: SearchType)
    ensures s.Code() == t.Code() ==> s == t
    ensures SearchTypeOf(s.Code()) == Some(s)
  {
    match s
    case Equal =>
    case Relax =>
    case Strict =>
    case EEqual =>
    case ERelax =>
    case EStrict =>
  }

  datatype AnswerShape = AnswerNone | AnswerOk | AnswerMsgOk | AnswerMsg
  {
    function Code(): (c: u8)
      ensures c < 4
    {
      match this
      case AnswerNone => 0
      case AnswerOk => 1
      case AnswerMsgOk => 2
      case AnswerMsg => 3
    }
  }

  /** The shape sim9_send_at acts on for a code: codes other than 1, 2 and 3
      fall into the `default` branch, which behaves as NONE. */
  function ShapeOf(c: u8): (s: AnswerShape)
    ensures c < 4 ==> s.Code() == c
    ensures c >= 4 ==> s == AnswerNone
  {
    if c == 1 then AnswerOk
    else if c == 2 then AnswerMsgOk
    else if c == 3 then AnswerMsg
    else AnswerNone
  }

  lemma ShapeCodesDistinct(s: AnswerShape, t: AnswerShape)
    ensures s.Code() == t.Code() ==> s == t
    ensures ShapeOf(s.Code()) == s
  {
    match s
    case AnswerNone =>
    case AnswerOk =>
    case AnswerMsgOk =>
    case AnswerMsg =>
  }

  // ---------------------------------------------------------------------
  // The status union. Each named bitfield is a component of `Status`;
  // `All` is the 16-bit `all` member that overlays them, least significant
  // bit first: ready, gprs, cid, sapbr, http (bits 0-4), provider (5-6),
  // tsmode (7), tcpip (8-11), echo (12), connected (13), unused (14-15).

  datatype Status = Status(
    ready: bool, gprs: bool, cid: bool, sapbr: bool, http: bool,
    provider: bv2,   // 1 Internet, 2 VODAFONE, 3 TIM
    tsMode: bool,    // transparent TCP mode
    tcpip: bv4,      // AT+CIPSTATUS 0-9
    echo: bool, connected: bool,
    unused: bv2)
  {
    /** The `all` member of the union. */
    function All(): bv16
    {
      (if ready then 0x0001 else 0) | (if gprs then 0x0002 else 0)
      | (if cid then 0x0004 else 0) | (if sapbr then 0x0008 else 0)
      | (if http then 0x0010 else 0) | ((provider as bv16) << 5)
      | (if tsMode then 0x0080 else 0) | ((tcpip as bv16) << 8)
      | (if echo then 0x1000 else 0) | (if connected then 0x2000 else 0)
      | ((unused as bv16) << 14)
    }
  }

  /** Reads the bitfields out of an `all` value. */
  function StatusOf(w: bv16): Status
  {
    Status(w & 0x0001 != 0, w & 0x0002 != 0, w & 0x0004 != 0, w & 0x0008 != 0,
      w & 0x0010 != 0, ((w >> 5) & 3) as bv2, w & 0x0080 != 0,
      ((w >> 8) & 0xF) as bv4, w & 0x1000 != 0, w & 0x2000 != 0, (w >> 14) as bv2)
  }

  /** `status.all = 0`. */
  const StatusCleared: Status :=
    Status(false, false, false, false, false, 0, false, 0, false, false, 0)

  /** The union's two views describe the same word: reading the fields of
      `all` and writing them back is the identity, both ways round. */
  lemma StatusRoundTrip(s: Status, w: bv16)
    ensures StatusOf(s.All()) == s
    ensures StatusOf(w).All() == w
  {
  }

  /** Writing one named bitfield of the status word changes that field
      and no other bit of `all`: read back through the bitfields, the
      word is the old reading with only that field replaced. */
  lemma StatusFieldWrite(s: Status, b: bool, p: bv2, c: bv4)
    ensures StatusOf(s.(ready := b).All()) == StatusOf(s.All()).(ready := b)
    ensures StatusOf(s.(gprs := b).All()) == StatusOf(s.All()).(gprs := b)
    ensures StatusOf(s.(cid := b).All()) == StatusOf(s.All()).(cid := b)
    ensures StatusOf(s.(sapbr := b).All()) == StatusOf(s.All()).(sapbr := b)
    ensures StatusOf(s.(http := b).All()) == StatusOf(s.All()).(http := b)
    ensures StatusOf(s.(provider := p).All()) == StatusOf(s.All()).(provider := p)
    ensures StatusOf(s.(tsMode := b).All()) == StatusOf(s.All()).(tsMode := b)
    ensures StatusOf(s.(tcpip := c).All()) == StatusOf(s.All()).(tcpip := c)
    ensures StatusOf(s.(echo := b).All()) == StatusOf(s.All()).(echo := b)
    ensures StatusOf(s.(connected := b).All()) == StatusOf(s.All()).(connected := b)
  {
    StatusRoundTrip(s, 0);
    StatusRoundTrip(s.(ready := b), 0);
    StatusRoundTrip(s.(gprs := b), 0);
    StatusRoundTrip(s.(cid := b), 0);
    StatusRoundTrip(s.(sapbr := b), 0);
    StatusRoundTrip(s.(http := b), 0);
    StatusRoundTrip(s.(provider := p), 0);
    StatusRoundTrip(s.(tsMode := b), 0);
    StatusRoundTrip(s.(tcpip := c), 0);
    StatusRoundTrip(s.(echo := b), 0);
    StatusRoundTrip(s.(connected := b), 0);
  }

  lemma StatusClearedAll()
    ensures StatusCleared.All() == 0
    ensures StatusOf(0) == StatusCleared
  {
  }

  // ---------------------------------------------------------------------
  // The error union: init, off, pin, imei, apn, tcpip, netreg, discon,
  // gprs, esc, connected (bits 0-10) and five unused bits (11-15).

  datatype Errors = Errors(
    init: bool, off: bool, pin: bool, imei: bool, apn: bool, tcpip: bool,
    netReg: bool, discon: bool, gprs: bool,
    esc: bool,        // the +++ escape sequence failed
    connected: bool,  // returning on line failed
    unused: bv5)
  {
    /** The `all` member of the union. */
    function All(): bv16
    {
      (if init then 0x0001 else 0) | (if off then 0x0002 else 0)
      | (if pin then 0x0004 else 0) | (if imei then 0x0008 else 0)
      | (if apn then 0x0010 else 0) | (if tcpip then 0x0020 else 0)
      | (if netReg then 0x0040 else 0) | (if discon then 0x0080 else 0)
      | (if gprs then 0x0100 else 0) | (if esc then 0x0200 else 0)
      | (if connected then 0x0400 else 0) | ((unused as bv16) << 11)
    }

    /** Some error field is set. */
    predicate Any()
    {
      init || off || pin || imei || apn || tcpip || netReg || discon || gprs
      || esc || connected || unused != 0
    }

    /** Some named error field is set. */
    predicate AnyNamed()
    {
      init || off || pin || imei || apn || tcpip || netReg || discon || gprs
      || esc || connected
    }
  }

  function ErrorsOf(w: bv16): Errors
  {
    Errors(w & 0x0001 != 0, w & 0x0002 != 0, w & 0x0004 != 0, w & 0x0008 != 0,
      w & 0x0010 != 0, w & 0x0020 != 0, w & 0x0040 != 0, w & 0x0080 != 0,
      w & 0x0100 != 0, w & 0x0200 != 0, w & 0x0400 != 0, (w >> 11) as bv5)
  }

  /** `errors.all = 0`. */
  const NoErrors: Errors :=
    Errors(false, false, false, false, false, false, false, false, false, false, false, 0)

  /** As for the status union, the two views of the error word agree. */
  lemma ErrorsRoundTrip(e: Errors)
    ensures ErrorsOf(e.All()) == e
  {
    ErrorsLowBits(e);
    ErrorsHighBits(e);
  }

  /** Writing one named bitfield of the error word changes that field and
      no other bit of `all`, the unused bits included. */
  lemma ErrorsFieldWrite(e: Errors, b: bool)
    ensures ErrorsOf(e.(init := b).All()) == ErrorsOf(e.All()).(init := b)
    ensures ErrorsOf(e.(off := b).All()) == ErrorsOf(e.All()).(off := b)
    ensures ErrorsOf(e.(pin := b).All()) == ErrorsOf(e.All()).(pin := b)
    ensures ErrorsOf(e.(imei := b).All()) == ErrorsOf(e.All()).(imei := b)
    ensures ErrorsOf(e.(apn := b).All()) == ErrorsOf(e.All()).(apn := b)
    ensures ErrorsOf(e.(tcpip := b).All()) == ErrorsOf(e.All()).(tcpip := b)
    ensures ErrorsOf(e.(netReg := b).All()) == ErrorsOf(e.All()).(netReg := b)
    ensures ErrorsOf(e.(discon := b).All()) == ErrorsOf(e.All()).(discon := b)
    ensures ErrorsOf(e.(gprs := b).All()) == ErrorsOf(e.All()).(gprs := b)
    ensures ErrorsOf(e.(esc := b).All()) == ErrorsOf(e.All()).(esc := b)
    ensures ErrorsOf(e.(connected := b).All()) == ErrorsOf(e.All()).(connected := b)
  {
    ErrorsRoundTrip(e);
    ErrorsRoundTrip(e.(init := b));
    ErrorsRoundTrip(e.(off := b));
    ErrorsRoundTrip(e.(pin := b));
    ErrorsRoundTrip(e.(imei := b));
    ErrorsRoundTrip(e.(apn := b));
    ErrorsRoundTrip(e.(tcpip := b));
    ErrorsRoundTrip(e.(netReg := b));
    ErrorsRoundTrip(e.(discon := b));
    ErrorsRoundTrip(e.(gprs := b));
    ErrorsRoundTrip(e.(esc := b));
    ErrorsRoundTrip(e.(connected := b));
  }

  lemma ErrorsLowBits(e: Errors)
    ensures var w := e.All();
      (w & 0x0001 != 0) == e.init && (w & 0x0002 != 0) == e.off
      && (w & 0x0004 != 0) == e.pin && (w & 0x0008 != 0) == e.imei
      && (w & 0x0010 != 0) == e.apn && (w & 0x0020 != 0) == e.tcpip
  {
  }

  lemma ErrorsHighBits(e: Errors)
    ensures var w := e.All();
      (w & 0x0040 != 0) == e.netReg && (w & 0x0080 != 0) == e.discon
      && (w & 0x0100 != 0) == e.gprs && (w & 0x0200 != 0) == e.esc
      && (w & 0x0400 != 0) == e.connected && (w >> 11) as bv5 == e.unused
  {
  }

  lemma ErrorsOfAll(w: bv16)
    ensures ErrorsOf(w).All() == w
  {
  }

  /** `errors.all` is zero exactly when no error field is set; so a stage
      guarded by `!errors.all` runs exactly when no error was recorded. */
  lemma ErrorsAllZero(e: Errors)
    ensures e.All() == 0 <==> !e.Any()
    ensures e.All() == 0 <==> e == NoErrors
  {
  }
}
