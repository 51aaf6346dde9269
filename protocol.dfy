/** The command/response engine of the driver: reading one framed message
    (`sim9_msg`), looking for a pattern among the next messages
    (`sim9_searchfor`, `sim9_searchfor_P`) and running one AT command
    (`sim9_send_at`, `sim9_send_at_P`). Each is a function of the link
    state and the caller's buffer; the session class runs the same steps
    in place. */
module Protocol {
  import opened Sim9Header
  import opened CStrings
  import opened Transport

  // ---------------------------------------------------------------------
  // sim9_msg

  /** What the polling loop of `sim9_msg` does with the link: the length
      it ends with, the link it leaves, and (for the proofs) the lines it
      consumed, oldest first. None of it depends on the buffer. */
  datatype Polled = Polled(len: nat, link: Link, taken: seq<Line>)

  /** What `sim9_msg` leaves behind: the polling outcome plus the buffer. */
  datatype Read = Read(len: nat, buf: seq<char>, link: Link, taken: seq<Line>)

  /** A line `usart_getmsg` delivers in fewer than 3 bytes: a bare CR LF,
      which `sim9_msg` discards. */
  predicate Short(line: Line, size: nat)
  {
    Min(|line|, size) < 3
  }

  /** All of the lines are short. */
  ghost predicate AllShort(s: seq<Line>, size: nat)
  {
    forall j :: 0 <= j < |s| ==> Short(s[j], size)
  }

  /** The buffer after `usart_getmsg` has copied each of the lines into it
      in turn, as much of each as fits in `size` bytes. */
  function Overlays(buf: seq<char>, t: seq<Line>, size: nat): (r: seq<char>)
    requires size <= |buf|
    ensures |r| == |buf|
    ensures t == [] ==> r == buf
    ensures t != [] ==> var n := Min(|t[|t| - 1]|, size); r[..n] == t[|t| - 1][..n]
  {
    if t == [] then buf
    else Copied(Overlays(buf, t[..|t| - 1], size), t[|t| - 1], size)
  }

  /** The polling loop of `sim9_msg`, with `loop` decrements of the
      counter left: wait, read a line when one is queued, drop it when it
      is short, and go round again while nothing was read and the counter
      has not run out. It consumes lines from the front of the stream;
      every line it consumes is short except, when it returns a message,
      the last one, whose length (cut to `size`) it returns. */
  function Poll(l: Link, size: nat, loop: nat): (r: Polled)
    ensures r.len == 0 || 3 <= r.len <= size
    ensures r.link.tx == l.tx && r.link.rxSize == l.rxSize && r.link.raw == l.raw
    ensures l.clock + 1 <= r.link.clock <= l.clock + loop + 1
    decreases loop
  {
    var g := Step(l, size);
    if g.len >= 3 then g
    else if loop == 0 then g.(len := 0)
    else
      var r := Poll(g.link, size, loop - 1);
      r.(taken := g.taken + r.taken)
  }

  /** The loop takes its lines from the front of the stream. */
  lemma {:induction false} PollStream(l: Link, size: nat, loop: nat)
    ensures var r := Poll(l, size, loop); Stream(l) == r.taken + Stream(r.link)
    decreases loop
  {
    var g := Step(l, size);
    StepHistory(l, size);
    if g.len < 3 && loop != 0 {
      var r := Poll(g.link, size, loop - 1);
      PollStream(g.link, size, loop - 1);
      assert Poll(l, size, loop).taken == g.taken + r.taken;
      assert Stream(l) == (g.taken + r.taken) + Stream(r.link);
    }
  }

  /** Every line the loop takes is short except, when it returns a
      message, the last one, whose length (cut to `size`) it returns. */
  lemma {:induction false} PollShape(l: Link, size: nat, loop: nat)
    ensures var r := Poll(l, size, loop);
      (r.len == 0 ==> AllShort(r.taken, size))
      && (r.len != 0 ==>
        |r.taken| >= 1 && AllShort(r.taken[..|r.taken| - 1], size)
        && r.len == Min(|r.taken[|r.taken| - 1]|, size))
    decreases loop
  {
    var g := Step(l, size);
    StepShape(l, size);
    if g.len < 3 && loop != 0 {
      var r := Poll(g.link, size, loop - 1);
      PollShape(g.link, size, loop - 1);
      assert Poll(l, size, loop) == r.(taken := g.taken + r.taken);
      ShortPrefix(g.taken, r.taken, size);
    }
  }

  /** Both together. */
  lemma PollHistory(l: Link, size: nat, loop: nat)
    ensures var r := Poll(l, size, loop);
      Stream(l) == r.taken + Stream(r.link)
      && (r.len == 0 ==> AllShort(r.taken, size))
      && (r.len != 0 ==>
        |r.taken| >= 1 && AllShort(r.taken[..|r.taken| - 1], size)
        && r.len == Min(|r.taken[|r.taken| - 1]|, size))
  {
    PollStream(l, size, loop);
    PollShape(l, size, loop);
  }

  /** A pass that reads fewer than 3 bytes took only short lines; one that
      reads more took exactly one line. */
  lemma StepShape(l: Link, size: nat)
    ensures var g := Step(l, size);
      (g.len < 3 ==> AllShort(g.taken, size))
      && (g.len >= 3 ==> |g.taken| == 1 && g.taken[..0] == [] && AllShort(g.taken[..0], size))
  {
  }

  /** Putting short lines in front keeps the shape of a poll's history. */
  lemma ShortPrefix(s: seq<Line>, t: seq<Line>, size: nat)
    requires AllShort(s, size)
    ensures AllShort(t, size) ==> AllShort(s + t, size)
    ensures |t| >= 1 ==>
      (s + t)[|s + t| - 1] == t[|t| - 1]
      && (AllShort(t[..|t| - 1], size) ==> AllShort((s + t)[..|s + t| - 1], size))
  {
    if |t| >= 1 {
      assert (s + t)[..|s + t| - 1] == s + t[..|t| - 1];
    }
  }

  /** One pass of the loop body: `_delay_ms(10)`, then `usart_getmsg` if
      the `eol` flag is up. A pass takes at most one line, from the front
      of the stream, and reports nothing when it takes none. */
  function Step(l: Link, size: nat): (g: Polled)
    ensures g.len <= size
    ensures g.link.tx == l.tx && g.link.rxSize == l.rxSize && g.link.raw == l.raw
    ensures g.link.clock == l.clock + 1
    ensures |g.taken| <= 1
    ensures g.taken != [] ==> g.len == Min(|g.taken[0]|, size)
    ensures g.taken == [] ==> g.len == 0
  {
    var t := Tick(l);
    if |t.rx| > 0 then Polled(Min(|t.rx[0]|, size), t.(rx := t.rx[1..]), [t.rx[0]])
    else Polled(0, t, [])
  }

  /** A pass takes its line from the front of the stream. */
  lemma StepHistory(l: Link, size: nat)
    ensures var g := Step(l, size); Stream(l) == g.taken + Stream(g.link)
  {
    var t := Tick(l);
    TickStream(l);
    if |t.rx| > 0 {
      assert Stream(t) == [t.rx[0]] + Stream(t.(rx := t.rx[1..]));
    }
  }

  /** `sim9_msg(s, size, timeout)`: poll for up to `timeout * 100 + 1`
      waits, then cut the CR LF off a message by terminating it two bytes
      before its end. */
  function Msg(l: Link, buf: seq<char>, size: u8, timeout: u8): (r: Read)
    requires size <= |buf|
    ensures r.len == 0 || 3 <= r.len <= size
    ensures |r.buf| == |buf|
    ensures r.link.tx == l.tx && r.link.rxSize == l.rxSize && r.link.raw == l.raw
    ensures l.clock + 1 <= r.link.clock <= l.clock + timeout * 100 + 1
    ensures r.len != 0 ==> StrLen(r.buf) <= r.len - 2
  {
    var p := Poll(l, size, timeout * 100);
    Terminate(Read(p.len, Overlays(buf, p.taken, size), p.link, p.taken))
  }

  /** `s[len - 2] = 0` after a message. */
  function Terminate(p: Read): (r: Read)
    requires p.len == 0 || 3 <= p.len <= |p.buf|
    ensures r.len == p.len && r.link == p.link && r.taken == p.taken && |r.buf| == |p.buf|
    ensures p.len == 0 ==> r.buf == p.buf
    ensures p.len != 0 ==> r.buf[..p.len - 2] == p.buf[..p.len - 2] && r.buf[p.len - 2] == NUL
    ensures p.len != 0 ==> StrLen(r.buf) <= p.len - 2
  {
    if p.len != 0 then
      var b := p.buf[p.len - 2 := NUL];
      CStrBefore(b, p.len - 2);
      p.(buf := b)
    else p
  }

  /** A terminator at index `k` makes the C string depend only on the
      bytes before it. */
  lemma PrefixCStr(b: seq<char>, k: nat)
    requires k < |b| && b[k] == NUL
    ensures CStr(b) == CStr(b[..k])
  {
    var c := CStr(b[..k]);
    assert c <= b;
    if |c| < k {
      assert b[|c|] == b[..k][|c|];
    }
    CStrUnique(b, c);
  }

  /** After a nonzero `sim9_msg` the string in the buffer is the last line
      it consumed, less that line's last two bytes (the CR LF of a line
      that fitted), up to any NUL inside it; every line consumed before it
      was a bare CR LF or shorter. */
  lemma MsgString(l: Link, buf: seq<char>, size: u8, timeout: u8)
    requires size <= |buf|
    ensures var r := Msg(l, buf, size, timeout); var t := r.taken;
      r.len != 0 ==>
        |t| >= 1 && r.len == Min(|t[|t| - 1]|, size) && AllShort(t[..|t| - 1], size)
        && CStr(r.buf) == CStr(t[|t| - 1][..r.len - 2])
  {
    var r := Msg(l, buf, size, timeout);
    PollHistory(l, size as nat, timeout as nat * 100);
    if r.len != 0 {
      var t := r.taken;
      assert r.buf[..r.len - 2] == t[|t| - 1][..r.len - 2];
      PrefixCStr(r.buf, r.len - 2);
    }
  }

  /** A first line at least as long as the buffer is cut: the message is
      `size` bytes, and the string left in the buffer is that line's first
      `size - 2` characters, whatever the line holds after them. */
  lemma MsgCutsLongLine(l: Link, buf: seq<char>, size: u8, timeout: u8)
    requires size <= |buf| && 3 <= size
    requires |Stream(l)| > 0 && size <= |Stream(l)[0]| && NUL !in Stream(l)[0][..size - 2]
    ensures var r := Msg(l, buf, size, timeout);
      r.len != 0 ==> r.len == size && CStr(r.buf) == Stream(l)[0][..size - 2]
  {
    var r := Msg(l, buf, size, timeout);
    MsgString(l, buf, size, timeout);
    PollStream(l, size, timeout * 100);
    if r.len != 0 {
      var t := r.taken;
      assert t[0] == Stream(l)[0];
      assert !Short(t[0], size);
      var p: Text := Stream(l)[0][..size - 2];
      CStrUnique(p, p);
    }
  }

  /** Without a message, every line `sim9_msg` consumed was short, and
      the buffer holds only what those short reads copied into it. */
  lemma MsgNothing(l: Link, buf: seq<char>, size: u8, timeout: u8)
    requires size <= |buf|
    ensures var r := Msg(l, buf, size, timeout);
      r.len == 0 ==> AllShort(r.taken, size) && r.buf == Overlays(buf, r.taken, size)
  {
    PollHistory(l, size as nat, timeout as nat * 100);
  }

  /** With nothing queued and nothing arriving, the loop reads nothing and
      ends after exactly `loop + 1` waits. */
  lemma {:induction false} PollSilent(l: Link, size: nat, loop: nat)
    requires l.rx == [] && l.arrivals == []
    ensures Poll(l, size, loop) == Polled(0, l.(clock := l.clock + loop + 1), [])
    decreases loop
  {
    if loop != 0 {
      PollSilent(l.(clock := l.clock + 1), size, loop - 1);
    }
  }

  /** So `sim9_msg` on a silent line reports no message after
      `timeout * 100 + 1` waits and leaves the buffer alone. */
  lemma MsgTimeout(l: Link, buf: seq<char>, size: u8, timeout: u8)
    requires size <= |buf|
    requires l.rx == [] && l.arrivals == []
    ensures var r := Msg(l, buf, size, timeout);
      r.len == 0 && r.buf == buf && r.link.clock == l.clock + timeout * 100 + 1
  {
    PollSilent(l, size, timeout * 100);
  }

  /** A queued message is read at once: a zero timeout still makes one
      poll. */
  lemma MsgZeroTimeout(l: Link, buf: seq<char>, size: u8)
    requires size <= |buf|
    ensures Msg(l, buf, size, 0).link.clock == l.clock + 1
  {
  }

  /** Whatever the buffer held before, `sim9_msg` returns the same length,
      leaves the link in the same state and, when it read a message, the
      same string in the buffer; so a scratch buffer's initial contents
      never show through a message. */
  lemma MsgIgnoresContents(l: Link, b1: seq<char>, b2: seq<char>, size: u8, timeout: u8)
    requires size <= |b1| && |b1| == |b2|
    ensures var r1, r2 := Msg(l, b1, size, timeout), Msg(l, b2, size, timeout);
      r1.len == r2.len && r1.link == r2.link && (r1.len != 0 ==> CStr(r1.buf) == CStr(r2.buf))
  {
    var r1, r2 := Msg(l, b1, size, timeout), Msg(l, b2, size, timeout);
    PollHistory(l, size as nat, timeout as nat * 100);
    if r1.len != 0 {
      var n := r1.len - 2;
      assert r1.buf[..n] == r2.buf[..n];
      PrefixCStr(r1.buf, n);
      PrefixCStr(r2.buf, n);
    }
  }

  // ---------------------------------------------------------------------
  // sim9_searchfor

  /** Search codes that look for a substring; every other code, known or
      not, looks for a prefix. */
  predicate SubstringSearch(code: u8)
  {
    code == Relax.Code() || code == ERelax.Code()
  }

  /** The fixed strings the protocol sends and looks for. */
  const CR: Text := "\r"
  const LF: Text := "\n"
  const OkReply: Text := "OK"
  const ErrorReply: Text := "ERROR"

  /** Search codes that give up on an "ERROR" message. */
  predicate ErrorAware(code: u8)
  {
    code == EEqual.Code() || code == ERelax.Code()
  }

  /** The test one message gets: `strstr(buffer, s)` or
      `strncmp(s, buffer, strlen(s)) == 0`. */
  predicate Matches(code: u8, pat: Text, buf: seq<char>)
  {
    if SubstringSearch(code) then Occurs(CStr(buf), pat) else StrNCmpZero(pat, buf, |pat|)
  }

  /** RELAX and ERELAX find the pattern anywhere in the message; all other
      codes only at its start. */
  lemma MatchesIff(code: u8, pat: Text, buf: seq<char>)
    ensures SubstringSearch(code) ==>
      (Matches(code, pat, buf) <==> exists i :: OccursAt(CStr(buf), pat, i))
    ensures !SubstringSearch(code) ==> (Matches(code, pat, buf) <==> pat <= CStr(buf))
  {
    OccursIff(CStr(buf), pat);
    StrNCmpPrefix(pat, buf);
  }

  /** A substring search accepts everything a prefix search does. */
  lemma PrefixSearchStricter(pat: Text, buf: seq<char>)
    ensures Matches(Equal.Code(), pat, buf) ==> Matches(Relax.Code(), pat, buf)
  {
    StrNCmpPrefix(pat, buf);
    if pat <= CStr(buf) {
      PrefixOccurs(CStr(buf), pat);
    }
  }

  /** What a search leaves behind: whether it matched, the buffer, the
      link, and how many times it called `sim9_msg`. */
  datatype Found = Found(ok: bool, buf: seq<char>, link: Link, tries: nat)

  /** The test `sim9_searchfor` applies to each message for `code`. */
  function Test(code: u8, pat: Text): seq<char> -> bool
  {
    (b: seq<char>) => Matches(code, pat, b)
  }

  /** The "ERROR" that ends the search for `code`: never, unless the code
      is EEQUAL or ERELAX. */
  function Fatal(code: u8): seq<char> -> bool
  {
    (b: seq<char>) => ErrorAware(code) && StrEq(b, ErrorReply)
  }

  /** A message the search read passes the test. */
  predicate Hit(hit: seq<char> -> bool, r: Read)
  {
    r.len != 0 && hit(r.buf)
  }

  /** A message the search read fails the test and is an "ERROR" that
      ends the search. */
  predicate Abort(hit: seq<char> -> bool, err: seq<char> -> bool, r: Read)
  {
    r.len != 0 && !hit(r.buf) && err(r.buf)
  }

  /** A reader the search loop can be run with: it keeps the caller's
      buffer length and leaves the transmitted text, the receive buffer
      size and the raw flag of the link alone. */
  ghost predicate Conserves(next: (Link, seq<char>) -> Read)
  {
    forall l, b :: |next(l, b).buf| == |b| && next(l, b).link.tx == l.tx
      && next(l, b).link.rxSize == l.rxSize && next(l, b).link.raw == l.raw
  }

  /** A reader whose outcome does not depend on the previous contents of
      the buffer, only on its length: it reads what it would have read
      into a buffer of zeros. */
  ghost predicate Oblivious(next: (Link, seq<char>) -> Read)
  {
    forall l, b :: Agree(next(l, b), next(l, Zeros(|b|)))
  }

  /** Two reads with the same length, link and message. */
  predicate Agree(r1: Read, r2: Read)
  {
    r1.len == r2.len && r1.link == r2.link && (r1.len != 0 ==> CStr(r1.buf) == CStr(r2.buf))
  }

  /** A test that looks at the message only up to its terminator. */
  ghost predicate OnString(t: seq<char> -> bool)
  {
    forall b1, b2 :: CStr(b1) == CStr(b2) ==> t(b1) == t(b2)
  }

  /** The read `sim9_searchfor` does in each round: `sim9_msg` with a
      timeout of one second. (A buffer shorter than `size` is never
      passed; the reader then reads nothing.) */
  function Reader(size: u8): (Link, seq<char>) -> Read
  {
    (l: Link, b: seq<char>) => if size <= |b| then Msg(l, b, size, 1) else Read(0, b, l, [])
  }

  /** `sim9_msg` is such a reader, and the tests look at the message only. */
  lemma ReaderConserves(size: u8)
    ensures Conserves(Reader(size)) && Oblivious(Reader(size))
  {
    forall l, b
      ensures Agree(Reader(size)(l, b), Reader(size)(l, Zeros(|b|)))
    {
      if size <= |b| {
        MsgIgnoresContents(l, b, Zeros(|b|), size, 1);
      }
    }
  }

  lemma TestsOnString(code: u8, pat: Text)
    ensures OnString(Test(code, pat)) && OnString(Fatal(code))
  {
    forall b1, b2 | CStr(b1) == CStr(b2)
      ensures Matches(code, pat, b1) == Matches(code, pat, b2)
    {
      MatchesIff(code, pat, b1);
      MatchesIff(code, pat, b2);
    }
  }

  /** The do-while of `sim9_searchfor` with `count` decrements left, over
      the reader `next` it calls for each message and the test `hit` the
      search code selects: read a message, stop when it passes the test,
      when it is an "ERROR" that ends the search (`err`), or when the
      counter is spent. */
  function Scan(next: (Link, seq<char>) -> Read, hit: seq<char> -> bool, err: seq<char> -> bool,
                l: Link, buf: seq<char>, count: nat): (f: Found)
    requires Conserves(next)
    ensures 1 <= f.tries <= count + 1
    ensures |f.buf| == |buf|
    ensures f.link.tx == l.tx && f.link.rxSize == l.rxSize && f.link.raw == l.raw
    ensures f.ok ==> hit(f.buf)
    ensures !f.ok && f.tries <= count ==> err(f.buf)
    ensures var r := next(l, buf); Hit(hit, r) ==> f.ok && f.tries == 1 && f.link == r.link && f.buf == r.buf
    decreases count
  {
    var r := next(l, buf);
    var ok := r.len != 0 && hit(r.buf);
    var abort := r.len != 0 && !ok && err(r.buf);
    if ok || abort || count == 0 then Found(ok, r.buf, r.link, 1)
    else
      var f := Scan(next, hit, err, r.link, r.buf, count - 1);
      f.(tries := f.tries + 1)
  }

  /** None of the messages the search reads before it ends passes. */
  ghost predicate NoMatch(next: (Link, seq<char>) -> Read, hit: seq<char> -> bool, err: seq<char> -> bool,
                          l: Link, buf: seq<char>, count: nat)
    decreases count
  {
    var r := next(l, buf);
    !Hit(hit, r) && (Abort(hit, err, r) || count == 0 || NoMatch(next, hit, err, r.link, r.buf, count - 1))
  }

  /** The first `n` messages read neither pass nor end the search. */
  ghost predicate Misses(next: (Link, seq<char>) -> Read, hit: seq<char> -> bool, err: seq<char> -> bool,
                         l: Link, buf: seq<char>, n: nat)
    decreases n
  {
    n == 0 ||
    (var r := next(l, buf);
     !Hit(hit, r) && !Abort(hit, err, r) && Misses(next, hit, err, r.link, r.buf, n - 1))
  }

  /** The buffer and link after `n` reads, with `tries` counting them. */
  ghost function Skip(next: (Link, seq<char>) -> Read, l: Link, buf: seq<char>, n: nat): (s: Found)
    requires Conserves(next)
    ensures |s.buf| == |buf| && s.tries == n && !s.ok
    decreases n
  {
    if n == 0 then Found(false, buf, l, 0)
    else
      var r := next(l, buf);
      var s := Skip(next, r.link, r.buf, n - 1);
      s.(tries := s.tries + 1)
  }

  /** One round of the search: it ends the search with its own verdict or
      leaves the rest of the search to do, one try later. */
  lemma ScanRound(next: (Link, seq<char>) -> Read, hit: seq<char> -> bool, err: seq<char> -> bool,
                  l: Link, buf: seq<char>, count: nat)
    requires Conserves(next)
    ensures var r := next(l, buf); var f := Scan(next, hit, err, l, buf, count);
      if Hit(hit, r) || Abort(hit, err, r) || count == 0 then f == Found(Hit(hit, r), r.buf, r.link, 1)
      else var g := Scan(next, hit, err, r.link, r.buf, count - 1); f == g.(tries := g.tries + 1)
  {
  }

  /** One read of a skip. */
  lemma SkipRound(next: (Link, seq<char>) -> Read, l: Link, buf: seq<char>, n: nat)
    requires Conserves(next) && n != 0
    ensures var r := next(l, buf); var s := Skip(next, r.link, r.buf, n - 1);
      Skip(next, l, buf, n) == s.(tries := s.tries + 1)
  {
  }

  /** A search fails exactly when no message it reads passes. */
  lemma {:induction false} ScanFails(next: (Link, seq<char>) -> Read, hit: seq<char> -> bool, err: seq<char> -> bool,
                                     l: Link, buf: seq<char>, count: nat)
    requires Conserves(next)
    ensures !Scan(next, hit, err, l, buf, count).ok <==> NoMatch(next, hit, err, l, buf, count)
    decreases count
  {
    var r := next(l, buf);
    if !Hit(hit, r) && !Abort(hit, err, r) && count != 0 {
      ScanFails(next, hit, err, r.link, r.buf, count - 1);
    }
  }

  /** A round that misses hands the search, and the skip, on to the next
      message. */
  lemma MissRound(next: (Link, seq<char>) -> Read, hit: seq<char> -> bool, err: seq<char> -> bool,
                  l: Link, buf: seq<char>, count: nat, k: nat)
    requires Conserves(next)
    requires 0 < k <= count && Misses(next, hit, err, l, buf, k)
    ensures var r := next(l, buf);
      var g := Scan(next, hit, err, r.link, r.buf, count - 1); var s := Skip(next, r.link, r.buf, k - 1);
      Misses(next, hit, err, r.link, r.buf, k - 1)
      && Scan(next, hit, err, l, buf, count) == g.(tries := g.tries + 1)
      && Skip(next, l, buf, k) == s.(tries := s.tries + 1)
  {
    ScanRound(next, hit, err, l, buf, count);
    SkipRound(next, l, buf, k);
  }

  /** After `k` messages that neither pass nor end the search, the search
      is the one that starts from the state they leave, `k` tries later. */
  lemma {:induction false} ScanAfterMisses(next: (Link, seq<char>) -> Read, hit: seq<char> -> bool, err: seq<char> -> bool,
                                           l: Link, buf: seq<char>, count: nat, k: nat)
    requires Conserves(next)
    requires k <= count && Misses(next, hit, err, l, buf, k)
    ensures var s := Skip(next, l, buf, k); var g := Scan(next, hit, err, s.link, s.buf, count - k);
      Scan(next, hit, err, l, buf, count) == g.(tries := g.tries + k)
    decreases k
  {
    if k != 0 {
      var r := next(l, buf);
      ghost var c: nat, j: nat := count - 1, k - 1;
      MissRound(next, hit, err, l, buf, count, k);
      ScanAfterMisses(next, hit, err, r.link, r.buf, c, j);
      ghost var s, d: nat := Skip(next, r.link, r.buf, j), count - k;
      assert c - j == d;
      assert Skip(next, l, buf, k).link == s.link && Skip(next, l, buf, k).buf == s.buf;
    }
  }

  /** The search stops at the first message that passes: when the first
      `k` messages miss and the next one passes, the search succeeds on
      try `k + 1` with that message in the buffer. */
  lemma ScanFirstMatch(next: (Link, seq<char>) -> Read, hit: seq<char> -> bool, err: seq<char> -> bool,
                       l: Link, buf: seq<char>, count: nat, k: nat)
    requires Conserves(next)
    requires k <= count && Misses(next, hit, err, l, buf, k)
    ensures var s := Skip(next, l, buf, k); var r := next(s.link, s.buf); var f := Scan(next, hit, err, l, buf, count);
      Hit(hit, r) ==> f.ok && f.tries == k + 1 && f.link == r.link && f.buf == r.buf
  {
    ScanAfterMisses(next, hit, err, l, buf, count, k);
  }

  /** Every message a search reads before its last one misses. */
  lemma {:induction false} ScanMissesBefore(next: (Link, seq<char>) -> Read, hit: seq<char> -> bool, err: seq<char> -> bool,
                                            l: Link, buf: seq<char>, count: nat)
    requires Conserves(next)
    ensures Misses(next, hit, err, l, buf, Scan(next, hit, err, l, buf, count).tries - 1)
    decreases count
  {
    var r := next(l, buf);
    if !Hit(hit, r) && !Abort(hit, err, r) && count != 0 {
      ghost var c: nat := count - 1;
      ghost var g := Scan(next, hit, err, r.link, r.buf, c);
      ScanMissesBefore(next, hit, err, r.link, r.buf, c);
      ScanRound(next, hit, err, l, buf, count);
      ghost var k: nat := g.tries;
      assert Misses(next, hit, err, l, buf, k);
    }
  }

  /** What a search reads: every message but the last one misses, the
      buffer and the link are those the last read leaves, the search
      succeeds exactly when that message passes, and a failure before the
      budget is spent is an "ERROR" that ends the search. */
  lemma ScanLastRead(next: (Link, seq<char>) -> Read, hit: seq<char> -> bool, err: seq<char> -> bool,
                     l: Link, buf: seq<char>, count: nat)
    requires Conserves(next)
    ensures var f := Scan(next, hit, err, l, buf, count);
      var s := Skip(next, l, buf, f.tries - 1); var r := next(s.link, s.buf);
      Misses(next, hit, err, l, buf, f.tries - 1)
      && f.link == r.link && f.buf == r.buf && (f.ok <==> Hit(hit, r))
      && (!f.ok && f.tries <= count ==> Abort(hit, err, r))
  {
    var f := Scan(next, hit, err, l, buf, count);
    ghost var k: nat := f.tries - 1;
    ScanMissesBefore(next, hit, err, l, buf, count);
    ScanAfterMisses(next, hit, err, l, buf, count, k);
    var s := Skip(next, l, buf, k);
    ghost var c: nat := count - k;
    ScanRound(next, hit, err, s.link, s.buf, c);
  }

  /** Reads into two buffers of the same length end the same way. */
  lemma IgnoresRound(next: (Link, seq<char>) -> Read, hit: seq<char> -> bool, err: seq<char> -> bool,
                     l: Link, b1: seq<char>, b2: seq<char>)
    requires Conserves(next) && Oblivious(next) && OnString(hit) && OnString(err) && |b1| == |b2|
    ensures var r1, r2 := next(l, b1), next(l, b2);
      r1.link == r2.link && |r1.buf| == |r2.buf|
      && Hit(hit, r1) == Hit(hit, r2) && Abort(hit, err, r1) == Abort(hit, err, r2)
  {
    var r1, r2 := next(l, b1), next(l, b2);
    assert Agree(r1, next(l, Zeros(|b1|))) && Agree(r2, next(l, Zeros(|b2|)));
    if r1.len != 0 {
      assert hit(r1.buf) == hit(r2.buf) && err(r1.buf) == err(r2.buf);
    }
  }

  /** The previous contents of the buffer change neither the verdict, nor
      the link, nor the number of reads of a search. */
  lemma {:induction false} ScanIgnoresContents(next: (Link, seq<char>) -> Read, hit: seq<char> -> bool, err: seq<char> -> bool,
                                               l: Link, b1: seq<char>, b2: seq<char>, count: nat)
    requires Conserves(next) && Oblivious(next) && OnString(hit) && OnString(err) && |b1| == |b2|
    ensures var f1, f2 := Scan(next, hit, err, l, b1, count), Scan(next, hit, err, l, b2, count);
      f1.ok == f2.ok && f1.link == f2.link && f1.tries == f2.tries
    decreases count
  {
    var r1, r2 := next(l, b1), next(l, b2);
    IgnoresRound(next, hit, err, l, b1, b2);
    if !Hit(hit, r1) && !Abort(hit, err, r1) && count != 0 {
      ghost var c: nat := count - 1;
      ScanIgnoresContents(next, hit, err, r1.link, r1.buf, r2.buf, c);
    }
  }

  /** The buffer `sim9_searchfor` reads into: the caller's or a scratch
      one the size of the receive buffer, emptied first. */
  function SearchBuf(l: Link, ext: Option<seq<char>>): (b: seq<char>)
    requires ext.Some? ==> 1 <= |ext.value|
    ensures ext.Some? ==> |b| == |ext.value|
    ensures ext.None? ==> |b| == l.rxSize
  {
    (if ext.Some? then ext.value else Zeros(l.rxSize))[0 := NUL]
  }

  /** The size `sim9_searchfor` passes to `sim9_msg`. */
  function SearchSize(l: Link, ext: Option<seq<char>>, extSize: u8): u8
  {
    if ext.Some? then extSize else l.rxSize as u8
  }

  /** The loop of `sim9_searchfor` over `buf`, reading with `sim9_msg`
      of `size` characters and testing with the code's comparison. */
  function Search(l: Link, pat: Text, buf: seq<char>, size: u8, code: u8, count: nat): (f: Found)
    ensures 1 <= f.tries <= count + 1
    ensures |f.buf| == |buf|
    ensures f.link.tx == l.tx && f.link.rxSize == l.rxSize && f.link.raw == l.raw
    ensures f.ok ==> Matches(code, pat, f.buf)
    ensures size <= |buf| ==> var r := Msg(l, buf, size, 1);
      r.len != 0 && Matches(code, pat, r.buf) ==> f.ok && f.tries == 1 && f.link == r.link && f.buf == r.buf
  {
    ReaderConserves(size);
    Scan(Reader(size), Test(code, pat), Fatal(code), l, buf, count)
  }

  /** A search fails exactly when none of the messages it may read, up to
      an "ERROR" that stops an ERROR-aware code, matches, and a search
      whose first `k` messages neither match nor stop it and whose next
      message matches succeeds on that message. */
  lemma SearchSucceeds(l: Link, pat: Text, buf: seq<char>, size: u8, code: u8, count: nat, k: nat)
    ensures var next, hit, err := Reader(size), Test(code, pat), Fatal(code);
      !Search(l, pat, buf, size, code, count).ok <==> NoMatch(next, hit, err, l, buf, count)
    ensures var next, hit, err := Reader(size), Test(code, pat), Fatal(code);
      k <= count && Misses(next, hit, err, l, buf, k) ==>
        var s := Skip(next, l, buf, k); var r := next(s.link, s.buf); var f := Search(l, pat, buf, size, code, count);
        r.len != 0 && Matches(code, pat, r.buf) ==> f.ok && f.tries == k + 1 && f.link == r.link && f.buf == r.buf
  {
    ReaderConserves(size);
    ScanFails(Reader(size), Test(code, pat), Fatal(code), l, buf, count);
    if k <= count && Misses(Reader(size), Test(code, pat), Fatal(code), l, buf, k) {
      ScanFirstMatch(Reader(size), Test(code, pat), Fatal(code), l, buf, count, k);
    }
  }

  /** So the contents of the buffer a search starts with, a scratch
      buffer's included, change neither its verdict, nor its count of
      reads, nor the link it leaves. */
  lemma SearchIgnoresContents(l: Link, pat: Text, b1: seq<char>, b2: seq<char>, size: u8, code: u8, count: nat)
    requires |b1| == |b2|
    ensures var f1, f2 := Search(l, pat, b1, size, code, count), Search(l, pat, b2, size, code, count);
      f1.ok == f2.ok && f1.tries == f2.tries && f1.link == f2.link
  {
    ReaderConserves(size);
    TestsOnString(code, pat);
    ScanIgnoresContents(Reader(size), Test(code, pat), Fatal(code), l, b1, b2, count);
  }

  /** `sim9_searchfor(s, count, extbuff, extsize, type)`: the caller's
      buffer when there is one, else a scratch buffer the size of the
      receive buffer; it is emptied first and then read into. */
  function SearchFor(l: Link, pat: Text, count: u8, ext: Option<seq<char>>, extSize: u8, code: u8): (f: Found)
    requires ext.Some? ==> 1 <= |ext.value| && extSize <= |ext.value|
    ensures 1 <= f.tries <= count + 1
    ensures ext.Some? ==> |f.buf| == |ext.value|
    ensures f.link.tx == l.tx && f.link.rxSize == l.rxSize && f.link.raw == l.raw
    ensures f.ok ==> Matches(code, pat, f.buf)
    ensures var r := Msg(l, SearchBuf(l, ext), SearchSize(l, ext, extSize), 1);
      r.len != 0 && Matches(code, pat, r.buf) ==> f.ok && f.tries == 1 && f.link == r.link && f.buf == r.buf
  {
    Search(l, pat, SearchBuf(l, ext), SearchSize(l, ext, extSize), code, count)
  }

  /** `sim9_searchfor_P`: the pattern is first copied out of program
      memory, keeping at most as many characters as the receive buffer
      holds. */
  function SearchForP(l: Link, pat: Text, count: u8, ext: Option<seq<char>>, extSize: u8, code: u8): (f: Found)
    requires ext.Some? ==> 1 <= |ext.value| && extSize <= |ext.value|
    ensures 1 <= f.tries <= count + 1
    ensures f.link.tx == l.tx && f.link.rxSize == l.rxSize && f.link.raw == l.raw
    ensures f.ok ==> Matches(code, Truncate(pat, l.rxSize), f.buf)
    ensures var r := Msg(l, SearchBuf(l, ext), SearchSize(l, ext, extSize), 1);
      r.len != 0 && Matches(code, Truncate(pat, l.rxSize), r.buf) ==> f.ok && f.tries == 1 && f.link == r.link && f.buf == r.buf
  {
    SearchFor(l, Truncate(pat, l.rxSize), count, ext, extSize, code)
  }

  /** A search that finds nothing, for a code that does not watch for
      "ERROR", always tries its whole budget of `count + 1` messages. */
  lemma SearchFullBudget(l: Link, pat: Text, count: u8, ext: Option<seq<char>>, extSize: u8, code: u8)
    requires ext.Some? ==> 1 <= |ext.value| && extSize <= |ext.value|
    requires !ErrorAware(code)
    ensures var f := SearchFor(l, pat, count, ext, extSize, code);
      !f.ok ==> f.tries == count + 1
  {
  }

  /** An "ERROR" message that does not match ends an EEQUAL or ERELAX
      search at once, whatever budget is left. */
  lemma SearchStopsOnError(next: (Link, seq<char>) -> Read, l: Link, pat: Text, buf: seq<char>, code: u8, count: nat)
    requires Conserves(next)
    requires ErrorAware(code)
    ensures var r := next(l, buf);
      r.len != 0 && StrEq(r.buf, ErrorReply) && !Matches(code, pat, r.buf) ==>
        var f := Scan(next, Test(code, pat), Fatal(code), l, buf, count);
        !f.ok && f.tries == 1 && f.link == r.link
  {
  }

  /** Other codes go on searching past an "ERROR" message. */
  lemma SearchIgnoresErrorUnlessAware(next: (Link, seq<char>) -> Read, l: Link, pat: Text, buf: seq<char>, code: u8, count: nat)
    requires Conserves(next)
    requires !ErrorAware(code) && count > 0
    ensures var r := next(l, buf);
      !(r.len != 0 && Matches(code, pat, r.buf)) ==>
        Scan(next, Test(code, pat), Fatal(code), l, buf, count).tries >= 2
  {
  }

  /** The six documented codes: only EEQUAL and ERELAX watch for "ERROR";
      ESTRICT, like STRICT, is a plain prefix search. */
  lemma SearchCodeKinds()
    ensures ErrorAware(EEqual.Code()) && ErrorAware(ERelax.Code())
    ensures !ErrorAware(Equal.Code()) && !ErrorAware(Relax.Code())
    ensures !ErrorAware(Strict.Code()) && !ErrorAware(EStrict.Code())
    ensures SubstringSearch(Relax.Code()) && SubstringSearch(ERelax.Code())
    ensures !SubstringSearch(Equal.Code()) && !SubstringSearch(EEqual.Code())
    ensures !SubstringSearch(Strict.Code()) && !SubstringSearch(EStrict.Code())
  {
  }

  // ---------------------------------------------------------------------
  // sim9_send_at

  /** The `uint8_t` argument `eol + 1`. */
  function Budget(l: Link): u8
  {
    (|l.rx| + 1) % 256
  }

  /** What `sim9_send_at` leaves behind. */
  datatype Answer = Answer(ok: bool, msg: seq<char>, link: Link)

  /** The echo phase: with echo on, send the LF that closes the echoed
      line, wait, and look for the command among the queued lines. */
  function Echo(l: Link, echo: bool, cmd: Text): (f: Found)
    ensures f.link.tx == l.tx + (if echo then [LF] else [])
    ensures f.link.rxSize == l.rxSize && f.link.raw == l.raw
    ensures !echo ==> f.ok && f.link == l
  {
    if echo then
      var t := Tick(Sent(l, LF));
      SearchFor(t, cmd, Budget(t), None, 0, EEqual.Code())
    else Found(true, [], l, 0)
  }

  /** The answer phase, entered after the second wait with the echo's
      verdict `ok`; C's `&&` skips every read once `ok` is false. */
  function Reply(l: Link, ok: bool, msg: seq<char>, size: u8, code: u8): (a: Answer)
    requires ShapeOf(code) == AnswerMsgOk || ShapeOf(code) == AnswerMsg ==> size <= |msg|
    ensures a.link.tx == l.tx && a.link.rxSize == l.rxSize && a.link.raw == l.raw
    ensures !ok ==> !a.ok && a.msg == msg && a.link == l
    ensures |a.msg| == |msg|
    ensures a.ok && (ShapeOf(code) == AnswerMsgOk || ShapeOf(code) == AnswerMsg) ==>
      3 <= size && StrLen(a.msg) <= size - 2
  {
    if !ok then Answer(false, msg, l)
    else match ShapeOf(code)
      case AnswerNone => Answer(true, msg, l)
      case AnswerOk =>
        var k := SearchForP(l, OkReply, Budget(l), None, 0, EEqual.Code());
        Answer(k.ok, msg, k.link)
      case AnswerMsgOk =>
        var r := Msg(l, msg, size, Budget(l));
        if r.len == 0 then Answer(false, r.buf, r.link)
        else
          var k := SearchForP(r.link, OkReply, Budget(r.link), None, 0, EEqual.Code());
          Answer(k.ok, r.buf, k.link)
      case AnswerMsg =>
        var r := Msg(l, msg, size, Budget(l));
        Answer(r.len != 0, r.buf, r.link)
  }

  /** `sim9_send_at(cmd, msg, size, type)` with the session's echo flag. */
  function SendAt(l: Link, echo: bool, cmd: Text, msg: seq<char>, size: u8, code: u8): (a: Answer)
    requires ShapeOf(code) == AnswerMsgOk || ShapeOf(code) == AnswerMsg ==> size <= |msg|
    ensures a.link.tx == l.tx + [cmd, CR] + (if echo then [LF] else [])
    ensures a.link.rxSize == l.rxSize && a.link.raw == l.raw
    ensures |a.msg| == |msg|
    ensures a.ok && (ShapeOf(code) == AnswerMsgOk || ShapeOf(code) == AnswerMsg) ==>
      3 <= size && StrLen(a.msg) <= size - 2
  {
    var sent := Sent(Sent(l, cmd), CR);
    assert sent.tx == l.tx + [cmd, CR];
    var e := Echo(sent, echo, cmd);
    Reply(Tick(e.link), e.ok, msg, size, code)
  }

  /** `sim9_send_at_P`: the command is copied out of program memory,
      keeping at most as many characters as the receive buffer holds. */
  function SendAtP(l: Link, echo: bool, cmd: Text, msg: seq<char>, size: u8, code: u8): (a: Answer)
    requires ShapeOf(code) == AnswerMsgOk || ShapeOf(code) == AnswerMsg ==> size <= |msg|
    ensures a.link.tx == l.tx + [Truncate(cmd, l.rxSize), CR] + (if echo then [LF] else [])
    ensures a.link.rxSize == l.rxSize && a.link.raw == l.raw
    ensures |a.msg| == |msg|
    ensures a.ok && (ShapeOf(code) == AnswerMsgOk || ShapeOf(code) == AnswerMsg) ==>
      3 <= size && StrLen(a.msg) <= size - 2
  {
    SendAt(l, echo, Truncate(cmd, l.rxSize), msg, size, code)
  }

  /** When the echo is missing no answer line is read: the caller's
      message buffer is untouched and the command fails. */
  lemma SendAtEchoFailure(l: Link, cmd: Text, msg: seq<char>, size: u8, code: u8)
    requires ShapeOf(code) == AnswerMsgOk || ShapeOf(code) == AnswerMsg ==> size <= |msg|
    ensures var e := Echo(Sent(Sent(l, cmd), CR), true, cmd);
      var a := SendAt(l, true, cmd, msg, size, code);
      !e.ok ==> !a.ok && a.msg == msg && a.link == Tick(e.link)
  {
  }

  /** With echo off the echo phase is skipped but for its CR. */
  lemma SendAtNoEcho(l: Link, cmd: Text, msg: seq<char>, size: u8, code: u8)
    requires ShapeOf(code) == AnswerMsgOk || ShapeOf(code) == AnswerMsg ==> size <= |msg|
    ensures SendAt(l, false, cmd, msg, size, code)
      == Reply(Tick(Sent(Sent(l, cmd), CR)), true, msg, size, code)
  {
  }

  /** How the answer phase decides `a`, shape by shape, from the echo's
      verdict `ok` on the link `t` after the second wait: C's `&&` skips
      everything after a missing echo; NONE asks for nothing more, OK for
      an "OK" line, MSG for a message read into `msg`, MSGOK for a message
      and then an "OK" line (the fall-through of the switch). After a
      message, `msg` holds the line read, less its CR LF. */
  ghost predicate Answered(t: Link, ok: bool, msg: seq<char>, size: u8, code: u8, a: Answer)
    requires ShapeOf(code) == AnswerMsgOk || ShapeOf(code) == AnswerMsg ==> size <= |msg|
  {
    (!ok ==> !a.ok && a.msg == msg && a.link == t)
    && match ShapeOf(code)
      case AnswerNone => a.ok == ok && a.msg == msg && a.link == t
      case AnswerOk =>
        var k := SearchForP(t, OkReply, Budget(t), None, 0, EEqual.Code());
        a.ok == (ok && k.ok) && a.msg == msg && (ok ==> a.link == k.link)
      case AnswerMsgOk =>
        var r := Msg(t, msg, size, Budget(t));
        var k := SearchForP(r.link, OkReply, Budget(r.link), None, 0, EEqual.Code());
        a.ok == (ok && r.len != 0 && k.ok)
        && (ok ==> a.msg == r.buf && a.link == (if r.len == 0 then r.link else k.link))
        && (ok && r.len != 0 ==> Line(r, a.msg))
      case AnswerMsg =>
        var r := Msg(t, msg, size, Budget(t));
        a.ok == (ok && r.len != 0)
        && (ok ==> a.msg == r.buf && a.link == r.link)
        && (ok && r.len != 0 ==> Line(r, a.msg))
  }

  /** `msg` holds the last line `r` consumed, less its last two bytes. */
  predicate Line(r: Read, msg: seq<char>)
  {
    3 <= r.len && |r.taken| >= 1 && r.len - 2 <= |r.taken[|r.taken| - 1]|
    && CStr(msg) == CStr(r.taken[|r.taken| - 1][..r.len - 2])
  }

  /** A message `sim9_msg` read leaves its line in the buffer. */
  lemma MsgLine(l: Link, buf: seq<char>, size: u8, timeout: u8)
    requires size <= |buf|
    ensures var r := Msg(l, buf, size, timeout); r.len != 0 ==> Line(r, r.buf)
  {
    MsgString(l, buf, size, timeout);
  }

  /** The answer phase meets `Answered` for every shape. */
  lemma ReplyAnswered(t: Link, ok: bool, msg: seq<char>, size: u8, code: u8)
    requires ShapeOf(code) == AnswerMsgOk || ShapeOf(code) == AnswerMsg ==> size <= |msg|
    ensures Answered(t, ok, msg, size, code, Reply(t, ok, msg, size, code))
  {
    if ShapeOf(code) == AnswerMsgOk || ShapeOf(code) == AnswerMsg {
      MsgLine(t, msg, size, Budget(t));
    }
  }

  /** The verdict of `sim9_send_at` for the command `cmd` as sent: the
      echo phase's verdict `e`, then the answer phase's. */
  ghost predicate Verdict(l: Link, echo: bool, cmd: Text, msg: seq<char>, size: u8, code: u8, a: Answer)
    requires ShapeOf(code) == AnswerMsgOk || ShapeOf(code) == AnswerMsg ==> size <= |msg|
  {
    var e := Echo(Sent(Sent(l, cmd), CR), echo, cmd);
    Answered(Tick(e.link), e.ok, msg, size, code, a)
  }

  /** The verdict of `sim9_send_at`, shape by shape. */
  lemma SendAtVerdict(l: Link, echo: bool, cmd: Text, msg: seq<char>, size: u8, code: u8)
    requires ShapeOf(code) == AnswerMsgOk || ShapeOf(code) == AnswerMsg ==> size <= |msg|
    ensures Verdict(l, echo, cmd, msg, size, code, SendAt(l, echo, cmd, msg, size, code))
  {
    var e := Echo(Sent(Sent(l, cmd), CR), echo, cmd);
    ReplyAnswered(Tick(e.link), e.ok, msg, size, code);
  }

  /** The verdict of `sim9_send_at_P`: that of the command cut to the
      receive buffer. */
  lemma SendAtPVerdict(l: Link, echo: bool, cmd: Text, msg: seq<char>, size: u8, code: u8)
    requires ShapeOf(code) == AnswerMsgOk || ShapeOf(code) == AnswerMsg ==> size <= |msg|
    ensures Verdict(l, echo, Truncate(cmd, l.rxSize), msg, size, code, SendAtP(l, echo, cmd, msg, size, code))
  {
    SendAtVerdict(l, echo, Truncate(cmd, l.rxSize), msg, size, code);
  }
}
