/** The serial link to the modem, as the driver sees it through the usart
    driver: a queue of complete received lines (whose count is the `eol`
    flag), the lines the modem will send while the processor waits, a raw
    byte stream for single-character reads, and the log of everything
    printed to the port. The usart driver itself is not part of this
    model; the functions below state what the modem driver relies on. */
module Transport {
  import opened Sim9Header
  import opened CStrings

  /** Size of the usart's receive buffer, which the driver stores in a
      `uint8_t`. */
  type Capacity = x: int | 1 <= x < 256 witness 1

  /** One received line, as `usart_getmsg` delivers it, terminator bytes
      included. */
  type Line = seq<char>

  datatype Link = Link(
    rxSize: Capacity,
    rx: seq<Line>,              // complete lines not yet read, oldest first
    arrivals: seq<seq<Line>>,   // the lines that arrive during each later delay
    raw: seq<char>,             // bytes available to `usart_get`
    tx: seq<Text>,              // strings printed to the port, in order
    clock: nat)                 // delays waited so far

  /** Every line still to be read, queued or yet to arrive, in order. */
  function Stream(l: Link): seq<Line>
  {
    l.rx + Flatten(l.arrivals)
  }

  function Flatten(ss: seq<seq<Line>>): seq<Line>
  {
    if ss == [] then [] else ss[0] + Flatten(ss[1..])
  }

  /** One `_delay_ms`: the lines the modem sends meanwhile join the queue. */
  function Tick(l: Link): (t: Link)
    ensures t.tx == l.tx && t.rxSize == l.rxSize && t.raw == l.raw
    ensures t.clock == l.clock + 1 && |t.rx| >= |l.rx|
  {
    if l.arrivals == [] then l.(clock := l.clock + 1)
    else l.(rx := l.rx + l.arrivals[0], arrivals := l.arrivals[1..], clock := l.clock + 1)
  }

  /** `usart_printstr`. */
  function Sent(l: Link, s: Text): Link
  {
    l.(tx := l.tx + [s])
  }

  /** `usart_clear_rx_buffer`: queued lines are dropped. */
  function Cleared(l: Link): Link
  {
    l.(rx := [])
  }

  /** `usart_getmsg` into a buffer of `size` bytes: the oldest line is
      dequeued and as much of it as fits is copied to the start of the
      buffer; nothing else is written and no terminator is added. */
  datatype Got = Got(len: nat, buf: seq<char>, link: Link)

  function Dequeue(l: Link, buf: seq<char>, size: nat): (g: Got)
    requires |l.rx| > 0 && size <= |buf|
    ensures g.len == Min(|l.rx[0]|, size)
    ensures g.buf == Copied(buf, l.rx[0], size)
    ensures g.link == l.(rx := l.rx[1..])
  {
    Got(Min(|l.rx[0]|, size), Copied(buf, l.rx[0], size), l.(rx := l.rx[1..]))
  }

  /** The buffer after one line has been copied into it: as much of the
      line as fits in `size` bytes, the rest of the buffer untouched. */
  function Copied(buf: seq<char>, line: Line, size: nat): (r: seq<char>)
    requires size <= |buf|
    ensures var n := Min(|line|, size);
      |r| == |buf| && r[..n] == line[..n] && r[n..] == buf[n..]
  {
    var n := Min(|line|, size);
    line[..n] + buf[n..]
  }

  /** A delay moves lines from the script to the queue without losing,
      inventing or reordering any. */
  lemma TickStream(l: Link)
    ensures Stream(Tick(l)) == Stream(l)
  {
    if l.arrivals != [] {
      assert Flatten(l.arrivals) == l.arrivals[0] + Flatten(l.arrivals[1..]);
    }
  }

  /** Reading a line removes exactly the first line of the stream. */
  lemma DequeueStream(l: Link, buf: seq<char>, size: nat)
    requires |l.rx| > 0 && size <= |buf|
    ensures Stream(Dequeue(l, buf, size).link) == Stream(l)[1..]
    ensures Stream(l)[0] == l.rx[0]
  {
  }

  /** `usart_get` of one byte: whether a byte was there, and which. */
  datatype Byte = Byte(got: bool, c: char, link: Link)

  function GetByte(l: Link): (b: Byte)
    ensures b.got <==> l.raw != []
    ensures b.got ==> b.c == l.raw[0] && b.link == l.(raw := l.raw[1..])
    ensures !b.got ==> b.link == l
  {
    if l.raw == [] then Byte(false, NUL, l) else Byte(true, l.raw[0], l.(raw := l.raw[1..]))
  }

  /** The usart port the session drives: its link state, and whether
      reception is suspended and the port is open. */
  class Usart {
    var link: Link
    var suspended: bool
    var open: bool

    /** `usart_init`. */
    constructor (l: Link)
      ensures link == l && !suspended && open
    {
      link := l;
      suspended := false;
      open := true;
    }

    method PrintStr(s: Text)
      modifies this`link
      ensures link == Sent(old(link), s)
    {
      link := link.(tx := link.tx + [s]);
    }

    /** The time the processor spends in one `_delay_ms`. */
    method Elapse()
      modifies this`link
      ensures link == Tick(old(link))
    {
      if link.arrivals == [] {
        link := link.(clock := link.clock + 1);
      } else {
        link := link.(rx := link.rx + link.arrivals[0], arrivals := link.arrivals[1..],
                      clock := link.clock + 1);
      }
    }

    method GetMsg(s: array<char>, size: u8) returns (len: u8)
      requires |link.rx| > 0 && size <= s.Length
      modifies this`link, s
      ensures var g := Dequeue(old(link), old(s[..]), size);
        len == g.len && s[..] == g.buf && link == g.link
    {
      var line := link.rx[0];
      var n := if |line| <= size then |line| else size;
      var i := 0;
      while i < n
        invariant 0 <= i <= n
        invariant s[..i] == line[..i]
        invariant s[i..] == old(s[..])[i..]
        invariant link == old(link)
      {
        s[i] := line[i];
        i := i + 1;
      }
      assert s[..] == s[..n] + s[n..];
      link := link.(rx := link.rx[1..]);
      len := n;
    }

    method Get() returns (got: bool, c: char)
      modifies this`link
      ensures var b := GetByte(old(link)); got == b.got && c == b.c && link == b.link
    {
      if link.raw == [] {
        got, c := false, NUL;
      } else {
        got, c := true, link.raw[0];
        link := link.(raw := link.raw[1..]);
      }
    }

    method ClearRxBuffer()
      modifies this`link
      ensures link == Cleared(old(link))
    {
      link := link.(rx := []);
    }

    method Suspend()
      modifies this`suspended
      ensures suspended
    {
      suspended := true;
    }

    method Resume()
      modifies this`suspended
      ensures !suspended
    {
      suspended := false;
    }

    /** `usart_shut`. */
    method Shut()
      modifies this`open
      ensures !open
    {
      open := false;
    }
  }
}
